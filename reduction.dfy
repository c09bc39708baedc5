/** Pieces shared by the orchestrators of chudnovsky.cpp: the batch of leaf
    requests, the four product requests of one merge, the assembly of a merged
    triple from the four product replies, and the readiness check of a window. */
module Reduction {
  import opened Pqt
  import opened Levels
  import opened Envelopes
  import opened Worker

  /** Slot r holds the triple x under id j (ids are never -1 here, so r is valid). */
  predicate Holds(r: RespPack, j: nat, x: Triple)
  {
    r.id == j && r.result == Some(x)
  }

  /** Request i of the batch is a compute request with id i over a non-empty interval. */
  predicate IsLeafBatch(batch: seq<ReqPack>)
  {
    forall i :: 0 <= i < |batch| ==>
      batch[i] == ComputeReq(i, batch[i].n1, batch[i].n2) && batch[i].n1 < batch[i].n2
  }

  /** The leaf triples the workers compute for a batch, by id. */
  function BatchValues(batch: seq<ReqPack>): (vals: seq<Triple>)
    requires IsLeafBatch(batch)
    ensures |vals| == |batch|
  {
    seq(|batch|, i requires 0 <= i < |batch| => ComputePQT(batch[i].n1, batch[i].n2))
  }

  /** The worker's reply to leaf request i holds leaf value i. */
  lemma LeafReply(batch: seq<ReqPack>, i: nat)
    requires IsLeafBatch(batch) && i < |batch|
    ensures Servable(batch[i]) && Holds(Serve(batch[i]), i, BatchValues(batch)[i])
  {
  }

  /** Issues the leaf requests: request i covers [i*batchSize, (i+1)*batchSize)
      (chudnovsky.cpp:92-97, 228-233, 352-357). */
  method IssueBatches(batchNum: int, batchSize: int) returns (batch: seq<ReqPack>)
    ensures |batch| == if batchNum > 0 then batchNum else 0
    ensures forall i :: 0 <= i < |batch| ==> batch[i] == ComputeReq(i, i * batchSize, (i + 1) * batchSize)
  {
    var begin, end := 0, batchSize;
    batch := [];
    var i := 0;
    while i < batchNum
      invariant 0 <= i && |batch| == i && i <= (if batchNum > 0 then batchNum else 0)
      invariant begin == i * batchSize && end == begin + batchSize
      invariant forall k :: 0 <= k < i ==> batch[k] == ComputeReq(k, k * batchSize, (k + 1) * batchSize)
    {
      batch := batch + [ComputeReq(i, begin, end)];
      begin := end;
      end := end + batchSize;
      i := i + 1;
    }
  }

  /** With batchSize = n / batchNum + 1 the batches overrun [0, n): they cover
      [0, batchNum*batchSize), strictly more than the n terms of the series. */
  lemma BatchesCoverMoreThanN(n: nat, batchNum: nat, batchSize: int)
    requires batchNum >= 1 && batchSize == n / batchNum + 1
    ensures batchSize >= 1
    ensures batchNum * batchSize > n
  {
    assert batchNum * (n / batchNum) + n % batchNum == n;
    assert batchNum * batchSize == batchNum * (n / batchNum) + batchNum;
  }

  /** Issued batches are contiguous and disjoint: each starts where the previous ended. */
  lemma IssuedBatchIsLeafBatch(batch: seq<ReqPack>, batchSize: int)
    requires batchSize >= 1
    requires forall i :: 0 <= i < |batch| ==> batch[i] == ComputeReq(i, i * batchSize, (i + 1) * batchSize)
    ensures IsLeafBatch(batch)
    ensures forall i :: 0 < i < |batch| ==> batch[i].n1 == batch[i - 1].n2
  {
    forall i | 0 <= i < |batch|
      ensures batch[i].n1 < batch[i].n2
    {
      assert (i + 1) * batchSize == i * batchSize + batchSize;
    }
  }

  lemma MulStep(i: int, k: int)
    ensures (i + 1) * k == i * k + k
  {
  }

  lemma MulGrows(i: int, k: int)
    requires i >= 1 && k >= 1
    ensures i * k >= k
  {
  }

  /** Appending the triple of [m, n) to a fold equal to the triple of [0, m)
      gives the triple of [0, n). */
  lemma FoldExtends(vals: seq<Triple>, m: int, n: int)
    requires 0 < m < n && |vals| >= 1
    requires CombineAll(vals[..|vals| - 1]) == ComputePQT(0, m)
    requires vals[|vals| - 1] == ComputePQT(m, n)
    ensures CombineAll(vals) == ComputePQT(0, n)
  {
    ComputeSplitAnywhere(0, m, n);
  }

  /** A leaf batch whose ranges start at 0 and follow on from each other folds
      to ComputePQT over their union. */
  lemma {:induction false} ContiguousFold(batch: seq<ReqPack>)
    requires |batch| >= 1 && IsLeafBatch(batch) && batch[0].n1 == 0
    requires forall i :: 0 < i < |batch| ==> batch[i].n1 == batch[i - 1].n2
    ensures batch[|batch| - 1].n2 > 0
    ensures CombineAll(BatchValues(batch)) == ComputePQT(0, batch[|batch| - 1].n2)
    decreases |batch|
  {
    var n := |batch|;
    var vals := BatchValues(batch);
    if n == 1 {
      assert vals[..0] == [];
      UnitIsNeutral(vals[0]);
    } else {
      var front := batch[..n - 1];
      assert vals[..n - 1] == BatchValues(front);
      ContiguousFold(front);
      FoldExtends(vals, batch[n - 2].n2, batch[n - 1].n2);
    }
  }

  /** The in-order combination of the issued batches is ComputePQT over their union. */
  lemma IssuedBatchFold(batch: seq<ReqPack>, batchSize: int)
    requires batchSize >= 1 && |batch| >= 1
    requires forall i :: 0 <= i < |batch| ==> batch[i] == ComputeReq(i, i * batchSize, (i + 1) * batchSize)
    ensures IsLeafBatch(batch)
    ensures CombineAll(BatchValues(batch)) == ComputePQT(0, |batch| * batchSize)
  {
    IssuedBatchIsLeafBatch(batch, batchSize);
    assert batch[0].n1 == 0;
    ContiguousFold(batch);
  }

  /** The four product requests of one merge, with ids base .. base+3
      (chudnovsky.cpp:145-148, 335-338). */
  function ProductRequests(base: nat, x: Triple, y: Triple): (s: seq<ReqPack>)
    ensures |s| == 4
    ensures forall j :: 0 <= j < 4 ==> s[j].id == base + j && Servable(s[j]) && s[j].kind == TypeCombine
  {
    var s := [CombineReq(base, x.P, y.P), CombineReq(base + 1, x.Q, y.Q),
              CombineReq(base + 2, x.T, y.Q), CombineReq(base + 3, x.P, y.T)];
    assert Servable(s[0]) && Servable(s[1]) && Servable(s[2]) && Servable(s[3]);
    s
  }

  /** The replies at b .. b+3 hold the four products that merging x with y
      asks for, in the order of ProductRequests. */
  predicate AnswersProducts(products: seq<RespPack>, b: nat, x: Triple, y: Triple)
    requires b + 4 <= |products|
  {
    products[b].a == Some(x.P * y.P) && products[b + 1].a == Some(x.Q * y.Q) &&
    products[b + 2].a == Some(x.T * y.Q) && products[b + 3].a == Some(x.P * y.T)
  }

  /** Assembles the triple of a merge from the four product replies at b .. b+3
      (CombinePQTMergerV2, chudnovsky.cpp:307-316; inline at 157-160). Whenever
      the replies are the products of some x and y, the result is the merge of
      x with y. */
  function CombinePQTMergerV2(products: seq<RespPack>, b: nat): (r: Triple)
    requires b + 4 <= |products|
    requires forall j :: b <= j < b + 4 ==> products[j].a.Some?
    ensures forall x, y :: AnswersProducts(products, b, x, y) ==> r == Combine(x, y)
    ensures r.P == products[b].a.value && r.Q == products[b + 1].a.value
    ensures r.T == products[b + 2].a.value + products[b + 3].a.value
  {
    Triple(products[b].a.value, products[b + 1].a.value,
           products[b + 2].a.value + products[b + 3].a.value)
  }

  /** The worker replies to the product requests of a merge assemble into the combined triple. */
  lemma ProductsAssemble(products: seq<RespPack>, b: nat, base: nat, x: Triple, y: Triple)
    requires b + 4 <= |products|
    requires forall j :: b <= j < b + 4 ==> products[j] == Serve(ProductRequests(base, x, y)[j - b])
    ensures forall j :: b <= j < b + 4 ==> products[j].a.Some?
    ensures CombinePQTMergerV2(products, b) == Combine(x, y)
  {
    assert products[b] == Serve(ProductRequests(base, x, y)[0]);
    assert products[b + 1] == Serve(ProductRequests(base, x, y)[1]);
    assert products[b + 2] == Serve(ProductRequests(base, x, y)[2]);
    assert products[b + 3] == Serve(ProductRequests(base, x, y)[3]);
    assert AnswersProducts(products, b, x, y);
  }

  predicate AllValid(slots: seq<RespPack>, begin: int, end: int)
    requires 0 <= begin && end < |slots|
  {
    forall i :: begin <= i <= end ==> slots[i].IsValid()
  }

  /** True iff every slot of the window [begin, end] is valid (chudnovsky.cpp:320-326). */
  method CombinePQTCheckResultV2(slots: seq<RespPack>, begin: int, end: int) returns (ok: bool)
    requires 0 <= begin && end < |slots|
    ensures ok <==> AllValid(slots, begin, end)
  {
    var i := begin;
    while i <= end
      invariant begin <= i && (i == begin || i <= end + 1)
      invariant forall k :: begin <= k < i ==> slots[k].IsValid()
    {
      if !slots[i].IsValid() {
        return false;
      }
      i := i + 1;
    }
    return true;
  }

  // ---- the slot vector of a master ----

  /** At a level whose nodes arrive as replies on a queue, every id left of the
      window has arrived; at or right of it, slot j holds node j once it has
      arrived and is empty before. */
  ghost predicate LeafSlots(vals: seq<Triple>, order: seq<nat>, t: nat, slots: seq<RespPack>, b: nat)
  {
    && |slots| == |vals| && t <= |order|
    && (forall j :: 0 <= j < b ==> j in order[..t])
    && (forall j :: b <= j < |vals| ==> j in order[..t] ==> Holds(slots[j], j, vals[j]))
    && (forall j :: b <= j < |vals| ==> j !in order[..t] ==> !slots[j].IsValid())
  }

  /** At a level computed by the master itself, slot j at or right of the window holds node j. */
  ghost predicate UpperSlots(slots: seq<RespPack>, cur: seq<Triple>, b: nat)
  {
    |cur| <= |slots| && forall j :: b <= j < |cur| ==> Holds(slots[j], j, cur[j])
  }

  /** Storing the next arrival at its id keeps LeafSlots; the id is never left of the window. */
  lemma LeafArrives(vals: seq<Triple>, order: seq<nat>, t: nat, slots: seq<RespPack>, b: nat, r: RespPack)
    requires IsOrder(order, |vals|) && t < |vals|
    requires LeafSlots(vals, order, t, slots, b)
    requires Holds(r, order[t], vals[order[t]])
    ensures order[t] >= b
    ensures LeafSlots(vals, order, t + 1, slots[order[t] := r], b)
  {
    NextIsFresh(order, |vals|, t);
    assert order[..t + 1] == order[..t] + [order[t]];
  }

  /** Once the window [b, b+1] is ready, both its ids have arrived, so the window
      can move past it whatever becomes of the two slots it leaves behind. */
  lemma LeafWindowAdvance(vals: seq<Triple>, order: seq<nat>, t: nat, slots: seq<RespPack>, b: nat,
                          slots': seq<RespPack>)
    requires LeafSlots(vals, order, t, slots, b)
    requires b + 1 < |vals| && slots[b].IsValid() && slots[b + 1].IsValid()
    requires |slots'| == |slots| && forall j :: b + 2 <= j < |slots| ==> slots'[j] == slots[j]
    ensures LeafSlots(vals, order, t, slots', b + 2)
  {
    forall j | 0 <= j < b + 2
      ensures j in order[..t]
    {
      if j >= b {
        assert slots[j].IsValid();
      }
    }
  }

  /** Moving the window of a computed level past two slots keeps the slots right of it. */
  lemma UpperWindowAdvance(slots: seq<RespPack>, cur: seq<Triple>, b: nat, slots': seq<RespPack>)
    requires UpperSlots(slots, cur, b)
    requires |slots'| == |slots| && forall j :: b + 2 <= j < |slots| ==> slots'[j] == slots[j]
    ensures UpperSlots(slots', cur, b + 2)
  {
  }

  /** A window [b, b+1] that is not ready waits for a node still to arrive. */
  lemma WindowBlocked(vals: seq<Triple>, order: seq<nat>, t: nat, slots: seq<RespPack>, b: nat)
    requires IsOrder(order, |vals|) && LeafSlots(vals, order, t, slots, b)
    requires b + 1 < |vals| && !(slots[b].IsValid() && slots[b + 1].IsValid())
    ensures t < |order|
  {
    var w := if slots[b].IsValid() then b + 1 else b;
    MissingMeansMore(order, |vals|, t, w);
  }

  /** When every node has arrived, the first slot holds the first node. */
  lemma AllArrived(vals: seq<Triple>, order: seq<nat>, t: nat, slots: seq<RespPack>)
    requires IsOrder(order, |vals|) && |vals| == 1 && t >= 1 && LeafSlots(vals, order, t, slots, 0)
    ensures Holds(slots[0], 0, vals[0])
  {
    assert order[..t][0] == 0;
  }

  // ---- the product requests of one level and their collection ----

  /** The product requests sent for the first `pairs` windows of a level, in
      sending order: window k sends ids 4k .. 4k+3 (chudnovsky.cpp:333-338). */
  function LevelRequests(cur: seq<Triple>, pairs: nat): (s: seq<ReqPack>)
    requires 2 * pairs <= |cur|
    ensures |s| == 4 * pairs
  {
    if pairs == 0 then []
    else LevelRequests(cur, pairs - 1) + ProductRequests(4 * (pairs - 1), cur[2 * (pairs - 1)], cur[2 * (pairs - 1) + 1])
  }

  /** Sending the products of window [b, b+1] extends the level's requests by one window. */
  lemma LevelRequestsGrow(cur: seq<Triple>, b: nat)
    requires b % 2 == 0 && b + 1 < |cur|
    ensures LevelRequests(cur, b / 2) + ProductRequests(2 * b, cur[b], cur[b + 1]) == LevelRequests(cur, b / 2 + 1)
  {
    assert 4 * (b / 2) == 2 * b;
  }

  /** Request 4k+j of a level is product j of window k; in particular request i has id i. */
  lemma {:induction false} LevelRequestsWindow(cur: seq<Triple>, pairs: nat, k: nat)
    requires 2 * pairs <= |cur| && k < pairs
    ensures LevelRequests(cur, pairs)[4 * k..4 * k + 4] == ProductRequests(4 * k, cur[2 * k], cur[2 * k + 1])
    decreases pairs
  {
    var s := LevelRequests(cur, pairs);
    if k < pairs - 1 {
      LevelRequestsWindow(cur, pairs - 1, k);
      assert s[4 * k..4 * k + 4] == LevelRequests(cur, pairs - 1)[4 * k..4 * k + 4];
    } else {
      assert s[4 * k..4 * k + 4] == s[4 * (pairs - 1)..];
    }
  }

  /** Every request of a level is a servable product request carrying its own index as id. */
  lemma LevelRequestsServable(cur: seq<Triple>, pairs: nat)
    requires 2 * pairs <= |cur|
    ensures forall i :: 0 <= i < 4 * pairs ==>
      LevelRequests(cur, pairs)[i].id == i && Servable(LevelRequests(cur, pairs)[i])
  {
    var s := LevelRequests(cur, pairs);
    forall i | 0 <= i < 4 * pairs
      ensures s[i].id == i && Servable(s[i])
    {
      var k := i / 4;
      LevelRequestsWindow(cur, pairs, k);
      assert s[i] == s[4 * k..4 * k + 4][i - 4 * k];
    }
  }

  /** Product replies right of the collector's window [b, b+3] are stored by id once
      they have arrived and are empty before; ids left of it have all arrived. */
  ghost predicate ProductSlots(reqs: seq<ReqPack>, order: seq<nat>, t: nat, products: seq<RespPack>, b: nat)
  {
    && |products| == |reqs| && t <= |order|
    && (forall i :: 0 <= i < b ==> i in order[..t])
    && (forall i :: b <= i < |reqs| ==> i in order[..t] ==> Servable(reqs[i]) && products[i] == Serve(reqs[i]))
    && (forall i :: b <= i < |reqs| ==> i !in order[..t] ==> !products[i].IsValid())
  }

  /** Storing the next product reply at its id keeps ProductSlots. */
  lemma ProductArrives(reqs: seq<ReqPack>, order: seq<nat>, t: nat, products: seq<RespPack>, b: nat)
    requires IsOrder(order, |reqs|) && t < |reqs|
    requires forall i :: 0 <= i < |reqs| ==> Servable(reqs[i])
    requires ProductSlots(reqs, order, t, products, b)
    ensures order[t] < |reqs| && order[t] >= b
    ensures ProductSlots(reqs, order, t + 1, products[order[t] := Serve(reqs[order[t]])], b)
  {
    NextIsFresh(order, |reqs|, t);
    assert order[..t + 1] == order[..t] + [order[t]];
  }

  /** Once a collector window is ready, its ids have all arrived, so the window can
      move past it whatever becomes of the four slots it leaves behind. */
  lemma ProductWindowAdvance(reqs: seq<ReqPack>, order: seq<nat>, t: nat, products: seq<RespPack>,
                             b: nat, products': seq<RespPack>)
    requires ProductSlots(reqs, order, t, products, b)
    requires b + 4 <= |reqs| && AllValid(products, b, b + 3)
    requires |products'| == |products| && forall i :: b + 4 <= i < |products| ==> products'[i] == products[i]
    ensures ProductSlots(reqs, order, t, products', b + 4)
  {
    forall i | b <= i < b + 4
      ensures i in order[..t]
    {
      assert products[i].IsValid();
    }
  }

  /** The replies in a full collector window [b, b+3] are the workers' answers
      to the requests sent with those ids. */
  lemma WindowReplies(reqs: seq<ReqPack>, order: seq<nat>, t: nat, products: seq<RespPack>, b: nat,
                      window: seq<ReqPack>)
    requires ProductSlots(reqs, order, t, products, b)
    requires b + 4 <= |reqs| && reqs[b..b + 4] == window
    requires AllValid(products, b, b + 3)
    ensures forall j :: b <= j < b + 4 ==> products[j] == Serve(window[j - b])
  {
    forall j | b <= j < b + 4
      ensures products[j] == Serve(window[j - b])
    {
      assert products[j].IsValid();
      assert reqs[j] == window[j - b];
    }
  }

  /** A ready collector window assembles the merge of the two nodes that sent it. */
  lemma ProductWindowReady(cur: seq<Triple>, pairs: nat, order: seq<nat>, t: nat, products: seq<RespPack>, k: nat)
    requires 2 * pairs <= |cur| && k < pairs
    requires ProductSlots(LevelRequests(cur, pairs), order, t, products, 4 * k)
    requires AllValid(products, 4 * k, 4 * k + 3)
    ensures forall j :: 4 * k <= j < 4 * k + 4 ==> products[j].a.Some?
    ensures CombinePQTMergerV2(products, 4 * k) == Combine(cur[2 * k], cur[2 * k + 1])
  {
    LevelRequestsWindow(cur, pairs, k);
    WindowReplies(LevelRequests(cur, pairs), order, t, products, 4 * k,
                  ProductRequests(4 * k, cur[2 * k], cur[2 * k + 1]));
    ProductsAssemble(products, 4 * k, 4 * k, cur[2 * k], cur[2 * k + 1]);
  }

  /** A collector window that is not ready waits for a product still to arrive. */
  lemma ProductWindowBlocked(reqs: seq<ReqPack>, order: seq<nat>, t: nat, products: seq<RespPack>, b: nat)
    requires IsOrder(order, |reqs|) && ProductSlots(reqs, order, t, products, b)
    requires b + 4 <= |reqs| && !AllValid(products, b, b + 3)
    ensures t < |order|
  {
    var w :| b <= w <= b + 3 && !products[w].IsValid();
    MissingMeansMore(order, |reqs|, t, w);
  }

  // ---- arrival orders, one per level ----

  /** One arrival order of the 4*(s/2) product replies of each level with s >= 2 slots. */
  ghost predicate ProductSchedule(orders: seq<seq<nat>>, s: nat)
    decreases s
  {
    s >= 2 ==> |orders| >= 1 && IsOrder(orders[0], 4 * (s / 2)) && ProductSchedule(orders[1..], s / 2)
  }

  /** One arrival order of the s replies of each level on the compute queue, down to one slot. */
  ghost predicate ArrivalSchedule(orders: seq<seq<nat>>, s: nat)
    decreases s
  {
    |orders| >= 1 && IsOrder(orders[0], s) && (s >= 2 ==> ArrivalSchedule(orders[1..], s / 2))
  }

  /** The outstanding requests on the compute queue, by id: the worker's reply to
      request k carries node k. */
  ghost predicate Answers(pending: seq<ReqPack>, vals: seq<Triple>)
  {
    |pending| == |vals| && forall k {:trigger pending[k]} :: 0 <= k < |pending| ==> Servable(pending[k]) && Holds(Serve(pending[k]), k, vals[k])
  }

  /** The leaf batch answers with the leaf values. */
  lemma BatchAnswers(batch: seq<ReqPack>)
    requires IsLeafBatch(batch)
    ensures Answers(batch, BatchValues(batch))
  {
    forall k | 0 <= k < |batch|
      ensures Servable(batch[k]) && Holds(Serve(batch[k]), k, BatchValues(batch)[k])
    {
      LeafReply(batch, k);
    }
  }

  /** One more answering request extends the answered prefix. */
  lemma AnswersExtend(pending: seq<ReqPack>, vals: seq<Triple>, k: nat, req: ReqPack)
    requires k < |vals| && Answers(pending, vals[..k])
    requires Servable(req) && Holds(Serve(req), k, vals[k])
    ensures Answers(pending + [req], vals[..k + 1])
  {
    assert vals[..k + 1] == vals[..k] + [vals[k]];
  }
}
