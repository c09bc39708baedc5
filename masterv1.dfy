/** Version 1 of the concurrent reduction (chudnovsky.cpp:84-163): the master
    pulls leaf replies, merges each ready window of two slots by sending the
    four products of the merge to the workers and waiting for all four, and
    writes the merged triple into slot begin/2, one level after another. */
module MasterV1 {
  import opened Pqt
  import opened Levels
  import opened Envelopes
  import opened Worker
  import opened Reduction

  /** One merge (chudnovsky.cpp:139-163): the four product requests go out with
      ids 0..3, the four replies come back in `order` and are stored by id,
      and the merged envelope takes id rp1.id/2 and the outer interval. */
  method CombinePQTMasterV1(rp1: RespPack, rp2: RespPack, order: seq<nat>)
    returns (merged: RespPack, sent: seq<ReqPack>)
    requires rp1.result.Some? && rp2.result.Some?
    requires IsOrder(order, 4)
    ensures sent == ProductRequests(0, rp1.result.value, rp2.result.value)
    ensures merged == TripleResp(CDiv(rp1.id, 2), rp1.n1, rp2.n2,
                                 Combine(rp1.result.value, rp2.result.value))
  {
    var x, y := rp1.result.value, rp2.result.value;
    sent := ProductRequests(0, x, y);
    var products := seq(4, _ => NewResp());
    var i := 0;
    while i < 4
      invariant 0 <= i <= 4 && |products| == 4
      invariant forall j :: 0 <= j < 4 && j in order[..i] ==> products[j] == Serve(sent[j])
    {
      NextIsFresh(order, 4, i);
      var id := order[i];
      products := products[id := Serve(sent[id])];
      i := i + 1;
    }
    assert order[..4] == order;
    forall j | 0 <= j < 4
      ensures products[j] == Serve(ProductRequests(0, x, y)[j - 0])
    {
      assert j in order[..4];
    }
    ProductsAssemble(products, 0, 0, x, y);
    merged := TripleResp(CDiv(rp1.id, 2), rp1.n1, rp2.n2, CombinePQTMergerV2(products, 0));
  }

  lemma MergeCountBound(bn: int, size: int, b: int)
    requires 2 <= size <= bn && size % 2 == 0 && b % 2 == 0 && 0 <= b && b + 2 <= size
    ensures bn - size + b / 2 < bn - 1
  {
  }

  /** Left of the window, slot j holds node j of the level being built. */
  ghost predicate NextPrefix(slots: seq<RespPack>, next: seq<Triple>, b: nat)
  {
    b / 2 <= |slots| && b / 2 <= |next| && forall j :: 0 <= j < b / 2 ==> Holds(slots[j], j, next[j])
  }

  /** The state of the slot vector between two steps of the master. `cur` is the
      level being merged, whose in-order combination never changes. */
  ghost predicate Inv(vals: seq<Triple>, order: seq<nat>, t: nat, slots: seq<RespPack>,
                      size: nat, b: nat, cur: seq<Triple>, atLeaves: bool)
  {
    && |slots| == |vals| && 1 <= size <= |vals| && |cur| == size && IsPow2(size)
    && CombineAll(cur) == CombineAll(vals)
    && b % 2 == 0 && (size >= 2 ==> b + 1 < size) && (size == 1 ==> b == 0)
    && t <= |order|
    && NextPrefix(slots, Pairwise(cur), b)
    && (atLeaves ==> cur == vals && size == |vals| && LeafSlots(vals, order, t, slots, b))
    && (!atLeaves ==> UpperSlots(slots, cur, b))
  }

  /** Before any reply, every slot is empty. */
  lemma InitInv(vals: seq<Triple>, order: seq<nat>)
    requires IsPow2(|vals|) && |order| == |vals|
    ensures Inv(vals, order, 0, seq(|vals|, _ => NewResp()), |vals|, 0, vals, true)
  {
  }

  /** A ready window holds the two nodes it merges. */
  lemma ReadyWindowHolds(vals: seq<Triple>, order: seq<nat>, t: nat, slots: seq<RespPack>,
                         size: nat, b: nat, cur: seq<Triple>, atLeaves: bool)
    requires Inv(vals, order, t, slots, size, b, cur, atLeaves)
    requires b + 1 < size && slots[b].IsValid() && slots[b + 1].IsValid()
    ensures Holds(slots[b], b, cur[b]) && Holds(slots[b + 1], b + 1, cur[b + 1])
  {
  }

  /** The merge of the window becomes node b/2 of the level being built. */
  lemma MergeExtendsPrefix(slots: seq<RespPack>, size: nat, b: nat, cur: seq<Triple>, merged: RespPack)
    requires |cur| == size && b + 1 < size && b % 2 == 0 && b / 2 < |slots|
    requires NextPrefix(slots, Pairwise(cur), b)
    requires Holds(merged, b / 2, Combine(cur[b], cur[b + 1]))
    ensures NextPrefix(slots[b / 2 := merged], Pairwise(cur), b + 2)
  {
    var slots' := slots[b / 2 := merged];
    var next := Pairwise(cur);
    assert next[b / 2] == Combine(cur[b], cur[b + 1]);
    forall j | 0 <= j < (b + 2) / 2
      ensures Holds(slots'[j], j, next[j])
    {
      if j < b / 2 {
        assert slots'[j] == slots[j];
      }
    }
  }

  /** Storing the merge of a window that is not the level's last in slot b/2
      keeps the invariant with the window moved on. */
  lemma MergeKeepsInv(vals: seq<Triple>, order: seq<nat>, t: nat, slots: seq<RespPack>,
                      size: nat, b: nat, cur: seq<Triple>, atLeaves: bool, merged: RespPack)
    requires Inv(vals, order, t, slots, size, b, cur, atLeaves)
    requires b + 1 < size - 1 && slots[b].IsValid() && slots[b + 1].IsValid()
    requires Holds(merged, b / 2, Combine(cur[b], cur[b + 1]))
    ensures Inv(vals, order, t, slots[b / 2 := merged], size, b + 2, cur, atLeaves)
  {
    MergeExtendsPrefix(slots, size, b, cur, merged);
    if atLeaves {
      LeafWindowAdvance(vals, order, t, slots, b, slots[b / 2 := merged]);
    } else {
      UpperWindowAdvance(slots, cur, b, slots[b / 2 := merged]);
    }
  }

  /** Storing the merge of the level's last window completes the next level,
      which the invariant then describes from its first window. */
  lemma MergeEndsLevel(vals: seq<Triple>, order: seq<nat>, t: nat, slots: seq<RespPack>,
                       size: nat, b: nat, cur: seq<Triple>, atLeaves: bool, merged: RespPack)
    requires Inv(vals, order, t, slots, size, b, cur, atLeaves)
    requires b + 1 == size - 1 && slots[b].IsValid() && slots[b + 1].IsValid()
    requires Holds(merged, b / 2, Combine(cur[b], cur[b + 1]))
    ensures Inv(vals, order, t, slots[b / 2 := merged], size / 2, 0, Pairwise(cur), false)
  {
    MergeExtendsPrefix(slots, size, b, cur, merged);
    PairwisePreservesFold(cur);
    HalfIsPow2(size);
    assert UpperSlots(slots[b / 2 := merged], Pairwise(cur), 0);
  }

  /** Storing a freshly arrived leaf at its id keeps the leaf-level invariant. */
  lemma PullKeepsInv(vals: seq<Triple>, order: seq<nat>, t: nat, slots: seq<RespPack>,
                     size: nat, b: nat, cur: seq<Triple>, r: RespPack)
    requires IsOrder(order, |vals|) && t < |vals|
    requires Inv(vals, order, t, slots, size, b, cur, true)
    requires order[t] < |vals| && Holds(r, order[t], vals[order[t]])
    ensures Inv(vals, order, t + 1, slots[order[t] := r], size, b, cur, true)
  {
    LeafArrives(vals, order, t, slots, b, r);
    var slots' := slots[order[t] := r];
    assert NextPrefix(slots', Pairwise(cur), b) by {
      forall j | 0 <= j < b / 2
        ensures slots'[j] == slots[j]
      {
      }
    }
  }

  /** A window that is not ready waits for a leaf still to come. */
  lemma BlockedMeansMore(vals: seq<Triple>, order: seq<nat>, t: nat, slots: seq<RespPack>,
                         size: nat, b: nat, cur: seq<Triple>, atLeaves: bool)
    requires Inv(vals, order, t, slots, size, b, cur, atLeaves) && IsOrder(order, |vals|)
    requires size >= 2 && !(slots[b].IsValid() && slots[b + 1].IsValid())
    ensures atLeaves && t < |order|
  {
    WindowBlocked(vals, order, t, slots, b);
  }

  /** Once a single slot is left and filled, it holds the combination of all leaves. */
  lemma FinalSlot(vals: seq<Triple>, order: seq<nat>, t: nat, slots: seq<RespPack>,
                  b: nat, cur: seq<Triple>, atLeaves: bool)
    requires Inv(vals, order, t, slots, 1, b, cur, atLeaves) && IsOrder(order, |vals|)
    requires atLeaves ==> t >= 1
    ensures slots[0].result == Some(CombineAll(vals))
  {
    if atLeaves {
      AllArrived(vals, order, t, slots);
    }
    CombineAllSingle(cur[0]);
  }

  /** The inner loop of the master (chudnovsky.cpp:116-128): merge windows while
      the window is ready, moving to the next level after a level's last window.
      The m-th merge takes its product replies in `productOrders[m]`. */
  method MergeReadyWindowsV1(ghost vals: seq<Triple>, ghost order: seq<nat>, ghost t: nat,
                             slots0: seq<RespPack>, size0: nat, b0: nat, ghost cur0: seq<Triple>,
                             ghost atLeaves0: bool, productOrders: seq<seq<nat>>, m0: nat)
    returns (slots: seq<RespPack>, size: nat, b: nat, ghost cur: seq<Triple>, ghost atLeaves: bool,
             sent: seq<ReqPack>, m: nat)
    requires Inv(vals, order, t, slots0, size0, b0, cur0, atLeaves0)
    requires m0 == |vals| - size0 + b0 / 2
    requires |productOrders| >= |vals| - 1
    requires forall k :: 0 <= k < |productOrders| ==> IsOrder(productOrders[k], 4)
    ensures Inv(vals, order, t, slots, size, b, cur, atLeaves)
    ensures m == |vals| - size + b / 2 && |sent| == 4 * (m - m0)
    ensures size >= 2 ==> !(slots[b].IsValid() && slots[b + 1].IsValid())
  {
    slots, size, b, cur, atLeaves, m := slots0, size0, b0, cur0, atLeaves0, m0;
    sent := [];
    var e := b + 1;
    while e < size && slots[b].IsValid() && slots[e].IsValid()
      invariant Inv(vals, order, t, slots, size, b, cur, atLeaves)
      invariant e == b + 1
      invariant m == |vals| - size + b / 2 && |sent| == 4 * (m - m0)
      decreases size, size - b
    {
      MergeCountBound(|vals|, size, b);
      var reqs;
      slots, size, b, cur, atLeaves, reqs := MergeWindowV1(vals, order, t, slots, size, b, cur, atLeaves, productOrders[m]);
      sent := sent + reqs;
      m := m + 1;
      e := b + 1;
    }
  }

  /** One merge (chudnovsky.cpp:117-128): the merge of the ready window goes to
      slot b/2, and the window moves two slots on or, at the end of the level,
      back to the start of the next level. */
  method MergeWindowV1(ghost vals: seq<Triple>, ghost order: seq<nat>, ghost t: nat,
                       slots0: seq<RespPack>, size0: nat, b0: nat, ghost cur0: seq<Triple>,
                       ghost atLeaves0: bool, productOrder: seq<nat>)
    returns (slots: seq<RespPack>, size: nat, b: nat, ghost cur: seq<Triple>, ghost atLeaves: bool,
             reqs: seq<ReqPack>)
    requires Inv(vals, order, t, slots0, size0, b0, cur0, atLeaves0)
    requires b0 + 1 < size0 && slots0[b0].IsValid() && slots0[b0 + 1].IsValid()
    requires IsOrder(productOrder, 4)
    ensures Inv(vals, order, t, slots, size, b, cur, atLeaves)
    ensures |reqs| == 4
    ensures b0 + 1 < size0 - 1 ==> size == size0 && b == b0 + 2
    ensures b0 + 1 == size0 - 1 ==> size == size0 / 2 && b == 0 && size0 == 2 * size
  {
    ReadyWindowHolds(vals, order, t, slots0, size0, b0, cur0, atLeaves0);
    var merged;
    merged, reqs := CombinePQTMasterV1(slots0[b0], slots0[b0 + 1], productOrder);
    if b0 + 1 != size0 - 1 {
      MergeKeepsInv(vals, order, t, slots0, size0, b0, cur0, atLeaves0, merged);
      slots, size, b, cur, atLeaves := slots0[b0 / 2 := merged], size0, b0 + 2, cur0, atLeaves0;
    } else {
      MergeEndsLevel(vals, order, t, slots0, size0, b0, cur0, atLeaves0, merged);
      slots, size, b, cur, atLeaves := slots0[b0 / 2 := merged], size0 / 2, 0, Pairwise(cur0), false;
    }
  }

  /** One round of the master loop (chudnovsky.cpp:110-132): pull the next leaf
      reply, store it by id, and merge whatever has become ready. */
  method PullAndMergeV1(batch: seq<ReqPack>, ghost vals: seq<Triple>, leafOrder: seq<nat>, t0: nat,
                        slots0: seq<RespPack>, size0: nat, b0: nat, ghost cur0: seq<Triple>,
                        productOrders: seq<seq<nat>>, m0: nat)
    returns (slots: seq<RespPack>, size: nat, b: nat, ghost cur: seq<Triple>, ghost atLeaves: bool,
             sent: seq<ReqPack>, m: nat, t: nat)
    requires IsLeafBatch(batch) && vals == BatchValues(batch)
    requires IsOrder(leafOrder, |batch|) && t0 < |batch|
    requires Inv(vals, leafOrder, t0, slots0, size0, b0, cur0, true)
    requires m0 == |vals| - size0 + b0 / 2
    requires |productOrders| >= |vals| - 1
    requires forall k :: 0 <= k < |productOrders| ==> IsOrder(productOrders[k], 4)
    ensures t == t0 + 1
    ensures Inv(vals, leafOrder, t, slots, size, b, cur, atLeaves)
    ensures m == |vals| - size + b / 2 && |sent| == 4 * (m - m0)
    ensures size >= 2 ==> atLeaves && t < |batch|
  {
    var id := leafOrder[t0];
    NextIsFresh(leafOrder, |batch|, t0);
    LeafReply(batch, id);
    PullKeepsInv(vals, leafOrder, t0, slots0, size0, b0, cur0, Serve(batch[id]));
    t := t0 + 1;
    slots, size, b, cur, atLeaves, sent, m :=
      MergeReadyWindowsV1(vals, leafOrder, t, slots0[id := Serve(batch[id])], size0, b0, cur0, true,
                          productOrders, m0);
    if size >= 2 {
      BlockedMeansMore(vals, leafOrder, t, slots, size, b, cur, atLeaves);
    }
  }

  /** The master loop (chudnovsky.cpp:104-135). Leaf replies arrive in
      `leafOrder`; the products of the m-th merge arrive in `productOrders[m]`.
      The loop ends with the in-order combination of all leaf triples, after
      exactly |batch|-1 merges of four product requests each. */
  method ComputePQTMasterV1(batch: seq<ReqPack>, leafOrder: seq<nat>, productOrders: seq<seq<nat>>)
    returns (result: Triple, sent: seq<ReqPack>)
    requires IsLeafBatch(batch) && IsPow2(|batch|)
    requires IsOrder(leafOrder, |batch|)
    requires |productOrders| >= |batch| - 1
    requires forall k :: 0 <= k < |productOrders| ==> IsOrder(productOrders[k], 4)
    ensures result == CombineAll(BatchValues(batch))
    ensures |sent| == 4 * (|batch| - 1)
  {
    var bn := |batch|;
    ghost var vals := BatchValues(batch);
    var slots := seq(bn, _ => NewResp());
    var b: nat := 0;
    var size: nat := bn;
    ghost var cur := vals;
    ghost var atLeaves := true;
    var t: nat := 0;
    var m: nat := 0;
    sent := [];
    InitInv(vals, leafOrder);
    while true
      invariant Inv(vals, leafOrder, t, slots, size, b, cur, atLeaves)
      invariant atLeaves && t < bn
      invariant m == bn - size + b / 2 && |sent| == 4 * m
      decreases bn - t
    {
      var more, m', t';
      slots, size, b, cur, atLeaves, more, m', t' :=
        PullAndMergeV1(batch, vals, leafOrder, t, slots, size, b, cur, productOrders, m);
      sent, m, t := sent + more, m', t';
      if size == 1 {
        break;
      }
    }
    FinalSlot(vals, leafOrder, t, slots, b, cur, atLeaves);
    assert size - 1 == 0;
    result := slots[size - 1].result.value;
  }

  /** PQTMasterV1 (chudnovsky.cpp:90-100): issue the batches, then reduce them.
      The result is the triple of the whole interval [0, batchNum*batchSize). */
  method PQTMasterV1(batchNum: nat, batchSize: int, leafOrder: seq<nat>, productOrders: seq<seq<nat>>)
    returns (result: Triple, issued: seq<ReqPack>, sent: seq<ReqPack>)
    requires IsPow2(batchNum) && batchSize >= 1
    requires IsOrder(leafOrder, batchNum)
    requires |productOrders| >= batchNum - 1
    requires forall k :: 0 <= k < |productOrders| ==> IsOrder(productOrders[k], 4)
    ensures |issued| == batchNum && IsLeafBatch(issued)
    ensures result == ComputePQT(0, batchNum * batchSize)
    ensures |sent| == 4 * (batchNum - 1)
  {
    issued := IssueBatches(batchNum, batchSize);
    IssuedBatchFold(issued, batchSize);
    result, sent := ComputePQTMasterV1(issued, leafOrder, productOrders);
  }
}
