/** Version 2 of the concurrent reduction (chudnovsky.cpp:226-342): the master
    sends the four products of each ready window without waiting and empties
    the window; after a level's last window, a collector gathers all product
    replies of the level and refills the halved slot vector, and the master
    carries on with the next level. */
module MasterV2 {
  import opened Pqt
  import opened Levels
  import opened Envelopes
  import opened Worker
  import opened Reduction

  /** CombinePQTSenderV2 (chudnovsky.cpp:330-342): send the four products of the
      window with ids 2*rp1.id .. 2*rp1.id+3, then empty both slots. */
  method CombinePQTSenderV2(rp1: RespPack, rp2: RespPack)
    returns (reqs: seq<ReqPack>, rp1': RespPack, rp2': RespPack)
    requires rp1.id >= 0 && rp1.result.Some? && rp2.result.Some?
    ensures reqs == ProductRequests(2 * rp1.id, rp1.result.value, rp2.result.value)
    ensures !rp1'.IsValid() && rp1'.(id := rp1.id) == rp1
    ensures !rp2'.IsValid() && rp2'.(id := rp2.id) == rp2
  {
    var x, y := rp1.result.value, rp2.result.value;
    var base := rp1.id * 2;
    reqs := [CombineReq(base + 0, x.P, y.P), CombineReq(base + 1, x.Q, y.Q),
             CombineReq(base + 2, x.T, y.Q), CombineReq(base + 3, x.P, y.T)];
    rp1' := rp1.Invalidate();
    rp2' := rp2.Invalidate();
  }

  /** Storing the merge of window `id` extends the filled prefix of the parent level. */
  lemma ParentPrefixGrows(parent: seq<RespPack>, cur: seq<Triple>, id: nat, x: Triple)
    requires id < |parent| && |cur| == 2 * |parent|
    requires forall k :: 0 <= k < id ==> parent[k] == IdResp(k, Pairwise(cur)[k])
    requires x == Combine(cur[2 * id], cur[2 * id + 1])
    ensures forall k :: 0 <= k < id + 1 ==> parent[id := IdResp(id, x)][k] == IdResp(k, Pairwise(cur)[k])
  {
    assert Pairwise(cur)[id] == x;
  }

  /** One complete window (chudnovsky.cpp:291-292): parent slot b/4 receives the
      assembled merge under id b/4, which is node b/4 of the next level. */
  method StoreWindowV2(parent: seq<RespPack>, ghost cur: seq<Triple>, ghost order: seq<nat>, ghost t: nat,
                       products: seq<RespPack>, b: nat)
    returns (parent': seq<RespPack>)
    requires |parent| >= 1 && |cur| == 2 * |parent|
    requires b % 4 == 0 && b + 4 <= 4 * |parent|
    requires ProductSlots(LevelRequests(cur, |parent|), order, t, products, b)
    requires AllValid(products, b, b + 3)
    requires forall k :: 0 <= k < b / 4 ==> parent[k] == IdResp(k, Pairwise(cur)[k])
    ensures |parent'| == |parent|
    ensures forall k :: 0 <= k < b / 4 + 1 ==> parent'[k] == IdResp(k, Pairwise(cur)[k])
  {
    var id := b / 4;
    ProductWindowReady(cur, |parent|, order, t, products, id);
    ParentPrefixGrows(parent, cur, id, CombinePQTMergerV2(products, b));
    parent' := parent[id := IdResp(id, CombinePQTMergerV2(products, b))];
  }

  /** The window loop of the collector (chudnovsky.cpp:290-301): while the window
      of four replies is complete, store its merge in parent slot b/4; stop after
      the last window (`done`) or at a window still waiting for a reply. */
  method CollectReadyWindowsV2(parent0: seq<RespPack>, ghost cur: seq<Triple>, outstanding: seq<ReqPack>,
                               ghost order: seq<nat>, ghost t: nat, products: seq<RespPack>, b0: nat)
    returns (parent: seq<RespPack>, b: nat, done: bool)
    requires |parent0| >= 1 && |cur| == 2 * |parent0|
    requires outstanding == LevelRequests(cur, |parent0|)
    requires b0 % 4 == 0 && b0 + 4 <= 4 * |parent0|
    requires ProductSlots(outstanding, order, t, products, b0)
    requires forall k :: 0 <= k < b0 / 4 ==> parent0[k] == IdResp(k, Pairwise(cur)[k])
    ensures |parent| == |parent0|
    ensures b % 4 == 0 && b + 4 <= 4 * |parent0|
    ensures ProductSlots(outstanding, order, t, products, b)
    ensures done ==> forall k :: 0 <= k < |parent0| ==> parent[k] == IdResp(k, Pairwise(cur)[k])
    ensures !done ==> !AllValid(products, b, b + 3)
    ensures !done ==> forall k :: 0 <= k < b / 4 ==> parent[k] == IdResp(k, Pairwise(cur)[k])
  {
    var n := 4 * |parent0|;
    parent, b, done := parent0, b0, false;
    var e := b + 3;
    var ready := e < n;
    if ready {
      ready := CombinePQTCheckResultV2(products, b, e);
    }
    while ready
      invariant |parent| == |parent0|
      invariant b % 4 == 0 && e == b + 3 && e < n
      invariant ProductSlots(outstanding, order, t, products, b)
      invariant forall k :: 0 <= k < b / 4 ==> parent[k] == IdResp(k, Pairwise(cur)[k])
      invariant ready <==> AllValid(products, b, e)
      decreases n - b
    {
      parent := StoreWindowV2(parent, cur, order, t, products, b);
      if e == n - 1 {
        assert b / 4 + 1 == |parent0|;
        done := true;
        return;
      }
      assert (b + 4) / 4 == b / 4 + 1;
      ProductWindowAdvance(outstanding, order, t, products, b, products);
      b, e := b + 4, e + 4;
      ready := CombinePQTCheckResultV2(products, b, e);
    }
  }

  /** CombinePQTMasterV2 (chudnovsky.cpp:281-303): the collector of one level.
      `outstanding` are the level's product requests, by id; their replies arrive
      in `order`. Window k of four replies becomes parent slot k, and the
      collector returns after the last window. Parent slot k ends up holding the
      merge of nodes 2k and 2k+1 of the level. */
  method CombinePQTMasterV2(parent: seq<RespPack>, ghost cur: seq<Triple>, outstanding: seq<ReqPack>,
                            order: seq<nat>)
    returns (newParent: seq<RespPack>)
    requires |parent| >= 1 && |cur| == 2 * |parent|
    requires outstanding == LevelRequests(cur, |parent|)
    requires IsOrder(order, 4 * |parent|)
    ensures |newParent| == |parent|
    ensures forall k :: 0 <= k < |parent| ==> newParent[k] == IdResp(k, Pairwise(cur)[k])
  {
    var n := 4 * |parent|;
    LevelRequestsServable(cur, |parent|);
    var products := seq(n, _ => NewResp());
    var b: nat := 0;
    var t: nat := 0;
    newParent := parent;
    while true
      invariant |newParent| == |parent| && t < n
      invariant b % 4 == 0 && b + 4 <= n
      invariant ProductSlots(outstanding, order, t, products, b)
      invariant forall k :: 0 <= k < b / 4 ==> newParent[k] == IdResp(k, Pairwise(cur)[k])
      decreases n - t
    {
      ProductArrives(outstanding, order, t, products, b);
      var id := order[t];
      products := products[id := Serve(outstanding[id])];
      t := t + 1;
      var done;
      newParent, b, done := CollectReadyWindowsV2(newParent, cur, outstanding, order, t, products, b);
      if done {
        return;
      }
      ProductWindowBlocked(outstanding, order, t, products, b);
    }
  }

  // ---- the master ----

  /** The state of the master between two steps. `cur` is the level being
      merged and `levelSent` the product requests sent for it so far; slots left
      of the window have been emptied by the sender. */
  ghost predicate Inv(vals: seq<Triple>, order: seq<nat>, t: nat, slots: seq<RespPack>, size: nat, b: nat,
                      cur: seq<Triple>, atLeaves: bool, levelSent: seq<ReqPack>)
  {
    && |slots| == size && 1 <= size <= |vals| && |cur| == size && IsPow2(size)
    && CombineAll(cur) == CombineAll(vals)
    && b % 2 == 0 && (size >= 2 ==> b + 1 < size) && (size == 1 ==> b == 0)
    && t <= |order|
    && levelSent == LevelRequests(cur, b / 2)
    && (atLeaves ==> cur == vals && size == |vals| && LeafSlots(vals, order, t, slots, b))
    && (!atLeaves ==> UpperSlots(slots, cur, b))
  }

  lemma InitInv(vals: seq<Triple>, order: seq<nat>)
    requires IsPow2(|vals|) && |order| == |vals|
    ensures Inv(vals, order, 0, seq(|vals|, _ => NewResp()), |vals|, 0, vals, true, [])
  {
  }

  /** A ready window holds the two nodes it merges. */
  lemma ReadyWindowHolds(vals: seq<Triple>, order: seq<nat>, t: nat, slots: seq<RespPack>, size: nat, b: nat,
                         cur: seq<Triple>, atLeaves: bool, levelSent: seq<ReqPack>)
    requires Inv(vals, order, t, slots, size, b, cur, atLeaves, levelSent)
    requires b + 1 < size && slots[b].IsValid() && slots[b + 1].IsValid()
    ensures Holds(slots[b], b, cur[b]) && Holds(slots[b + 1], b + 1, cur[b + 1])
  {
  }

  /** Sending the window's products and emptying it moves the window on; after
      the last window of a level, the requests sent are those of the whole level. */
  lemma SendKeepsInv(vals: seq<Triple>, order: seq<nat>, t: nat, slots: seq<RespPack>, size: nat, b: nat,
                     cur: seq<Triple>, atLeaves: bool, levelSent: seq<ReqPack>, slots': seq<RespPack>)
    requires Inv(vals, order, t, slots, size, b, cur, atLeaves, levelSent)
    requires b + 1 < size && slots[b].IsValid() && slots[b + 1].IsValid()
    requires |slots'| == |slots| && forall j :: b + 2 <= j < |slots| ==> slots'[j] == slots[j]
    ensures levelSent + ProductRequests(2 * b, cur[b], cur[b + 1]) == LevelRequests(cur, b / 2 + 1)
    ensures b + 1 != size - 1 ==>
      Inv(vals, order, t, slots', size, b + 2, cur, atLeaves, levelSent + ProductRequests(2 * b, cur[b], cur[b + 1]))
  {
    assert 4 * (b / 2) == 2 * b;
    if atLeaves {
      LeafWindowAdvance(vals, order, t, slots, b, slots');
    } else {
      UpperWindowAdvance(slots, cur, b, slots');
    }
  }

  /** The parent vector the collector returns is the next level, complete. */
  lemma LevelEndInv(vals: seq<Triple>, order: seq<nat>, t: nat, cur: seq<Triple>, parent: seq<RespPack>)
    requires 2 <= |cur| <= |vals| && IsPow2(|cur|) && CombineAll(cur) == CombineAll(vals) && t <= |order|
    requires |parent| == |cur| / 2
    requires forall k :: 0 <= k < |parent| ==> parent[k] == IdResp(k, Pairwise(cur)[k])
    ensures Inv(vals, order, t, parent, |cur| / 2, 0, Pairwise(cur), false, [])
  {
    HalfIsPow2(|cur|);
    PairwisePreservesFold(cur);
  }

  /** Storing a freshly arrived leaf at its id keeps the invariant. */
  lemma PullKeepsInv(vals: seq<Triple>, order: seq<nat>, t: nat, slots: seq<RespPack>, size: nat, b: nat,
                     cur: seq<Triple>, levelSent: seq<ReqPack>, r: RespPack)
    requires IsOrder(order, |vals|) && t < |vals|
    requires Inv(vals, order, t, slots, size, b, cur, true, levelSent)
    requires order[t] < |vals| && Holds(r, order[t], vals[order[t]])
    ensures Inv(vals, order, t + 1, slots[order[t] := r], size, b, cur, true, levelSent)
  {
    LeafArrives(vals, order, t, slots, b, r);
  }

  /** A window that is not ready waits for a leaf still to come. */
  lemma BlockedMeansMore(vals: seq<Triple>, order: seq<nat>, t: nat, slots: seq<RespPack>, size: nat, b: nat,
                         cur: seq<Triple>, atLeaves: bool, levelSent: seq<ReqPack>)
    requires Inv(vals, order, t, slots, size, b, cur, atLeaves, levelSent) && IsOrder(order, |vals|)
    requires size >= 2 && !(slots[b].IsValid() && slots[b + 1].IsValid())
    ensures atLeaves && t < |order|
  {
    WindowBlocked(vals, order, t, slots, b);
  }

  /** Once one slot is left and filled, it holds the combination of all leaves. */
  lemma FinalSlot(vals: seq<Triple>, order: seq<nat>, t: nat, slots: seq<RespPack>, b: nat,
                  cur: seq<Triple>, atLeaves: bool, levelSent: seq<ReqPack>)
    requires Inv(vals, order, t, slots, 1, b, cur, atLeaves, levelSent) && IsOrder(order, |vals|)
    requires atLeaves ==> t >= 1
    ensures slots[0].result == Some(CombineAll(vals))
  {
    if atLeaves {
      AllArrived(vals, order, t, slots);
    }
    CombineAllSingle(cur[0]);
  }

  lemma SendCountBound(bn: int, size: int, b: int)
    requires 2 <= size <= bn && size % 2 == 0 && b % 2 == 0 && 0 <= b && b + 2 <= size
    ensures bn - size + b / 2 < bn - 1
  {
  }

  /** The end of a level (chudnovsky.cpp:264-266): halve the slot vector and let
      the collector fill it with the next level. */
  method NextLevelV2(ghost vals: seq<Triple>, ghost order: seq<nat>, ghost t: nat, slots: seq<RespPack>,
                     ghost cur: seq<Triple>, levelSent: seq<ReqPack>, productOrder: seq<nat>)
    returns (parent: seq<RespPack>)
    requires |slots| == |cur| && 2 <= |cur| <= |vals| && IsPow2(|cur|)
    requires CombineAll(cur) == CombineAll(vals) && t <= |order|
    requires levelSent == LevelRequests(cur, |cur| / 2)
    requires IsOrder(productOrder, 4 * (|cur| / 2))
    ensures Inv(vals, order, t, parent, |cur| / 2, 0, Pairwise(cur), false, [])
  {
    HalfIsPow2(|cur|);
    var size := |slots| / 2;
    parent := slots[..size];
    parent := CombinePQTMasterV2(parent, cur, levelSent, productOrder);
    LevelEndInv(vals, order, t, cur, parent);
  }

  /** One pass of the inner loop (chudnovsky.cpp:254-269): send the ready
      window's products and empty it, then move the window on or, after the
      level's last window, go to the next level. */
  method SendWindowV2(ghost vals: seq<Triple>, ghost order: seq<nat>, ghost t: nat,
                      slots0: seq<RespPack>, size0: nat, b0: nat, ghost cur0: seq<Triple>,
                      ghost atLeaves0: bool, levelSent0: seq<ReqPack>, productOrders: seq<seq<nat>>, lvl0: nat)
    returns (slots: seq<RespPack>, size: nat, b: nat, ghost cur: seq<Triple>, ghost atLeaves: bool,
             levelSent: seq<ReqPack>, reqs: seq<ReqPack>, lvl: nat)
    requires Inv(vals, order, t, slots0, size0, b0, cur0, atLeaves0, levelSent0)
    requires b0 + 1 < size0 && slots0[b0].IsValid() && slots0[b0 + 1].IsValid()
    requires lvl0 <= |productOrders| && ProductSchedule(productOrders[lvl0..], size0)
    ensures Inv(vals, order, t, slots, size, b, cur, atLeaves, levelSent)
    ensures lvl <= |productOrders| && ProductSchedule(productOrders[lvl..], size)
    ensures |reqs| == 4
    ensures (size == size0 && b == b0 + 2) || (size == size0 / 2 && b == 0 && b0 == size0 - 2)
  {
    ReadyWindowHolds(vals, order, t, slots0, size0, b0, cur0, atLeaves0, levelSent0);
    var e := b0 + 1;
    var r1, r2;
    reqs, r1, r2 := CombinePQTSenderV2(slots0[b0], slots0[e]);
    slots := slots0[b0 := r1][e := r2];
    SendKeepsInv(vals, order, t, slots0, size0, b0, cur0, atLeaves0, levelSent0, slots);
    levelSent := levelSent0 + reqs;
    size, b, cur, atLeaves, lvl := size0, b0, cur0, atLeaves0, lvl0;
    if e != size - 1 {
      b := b + 2;
    } else {
      assert productOrders[lvl..][1..] == productOrders[lvl + 1..];
      size := size / 2;
      slots := NextLevelV2(vals, order, t, slots, cur, levelSent, productOrders[lvl]);
      cur := Pairwise(cur);
      levelSent := [];
      lvl := lvl + 1;
      atLeaves := false;
      b := 0;
    }
  }

  /** The inner loop of the master (chudnovsky.cpp:252-270): while the window is
      ready, send its products and move on; after a level's last window, halve
      the slot vector and let the collector refill it with the next level, whose
      product replies arrive in `productOrders[lvl]`. */
  method MergeReadyWindowsV2(ghost vals: seq<Triple>, ghost order: seq<nat>, ghost t: nat,
                             slots0: seq<RespPack>, size0: nat, b0: nat, ghost cur0: seq<Triple>,
                             ghost atLeaves0: bool, levelSent0: seq<ReqPack>,
                             productOrders: seq<seq<nat>>, lvl0: nat, m0: nat)
    returns (slots: seq<RespPack>, size: nat, b: nat, ghost cur: seq<Triple>, ghost atLeaves: bool,
             levelSent: seq<ReqPack>, sent: seq<ReqPack>, lvl: nat, m: nat)
    requires Inv(vals, order, t, slots0, size0, b0, cur0, atLeaves0, levelSent0)
    requires m0 == |vals| - size0 + b0 / 2
    requires lvl0 <= |productOrders| && ProductSchedule(productOrders[lvl0..], size0)
    ensures Inv(vals, order, t, slots, size, b, cur, atLeaves, levelSent)
    ensures lvl <= |productOrders| && ProductSchedule(productOrders[lvl..], size)
    ensures m == |vals| - size + b / 2 && |sent| == 4 * (m - m0)
    ensures size >= 2 ==> !(slots[b].IsValid() && slots[b + 1].IsValid())
  {
    slots, size, b, cur, atLeaves, levelSent, lvl, m := slots0, size0, b0, cur0, atLeaves0, levelSent0, lvl0, m0;
    sent := [];
    while b + 1 < size && slots[b].IsValid() && slots[b + 1].IsValid()
      invariant Inv(vals, order, t, slots, size, b, cur, atLeaves, levelSent)
      invariant lvl <= |productOrders| && ProductSchedule(productOrders[lvl..], size)
      invariant m == |vals| - size + b / 2 && |sent| == 4 * (m - m0)
      decreases size, size - b
    {
      var reqs;
      slots, size, b, cur, atLeaves, levelSent, reqs, lvl :=
        SendWindowV2(vals, order, t, slots, size, b, cur, atLeaves, levelSent, productOrders, lvl);
      sent := sent + reqs;
      m := m + 1;
    }
  }

  /** One round of the master loop (chudnovsky.cpp:246-274): pull the next leaf
      reply, store it by id, and send or collect whatever has become ready. */
  method PullAndMergeV2(batch: seq<ReqPack>, ghost vals: seq<Triple>, leafOrder: seq<nat>, t0: nat,
                        slots0: seq<RespPack>, size0: nat, b0: nat, ghost cur0: seq<Triple>,
                        levelSent0: seq<ReqPack>, productOrders: seq<seq<nat>>, lvl0: nat, m0: nat)
    returns (slots: seq<RespPack>, size: nat, b: nat, ghost cur: seq<Triple>, ghost atLeaves: bool,
             levelSent: seq<ReqPack>, sent: seq<ReqPack>, lvl: nat, m: nat, t: nat)
    requires IsLeafBatch(batch) && vals == BatchValues(batch)
    requires IsOrder(leafOrder, |batch|) && t0 < |batch|
    requires Inv(vals, leafOrder, t0, slots0, size0, b0, cur0, true, levelSent0)
    requires m0 == |vals| - size0 + b0 / 2
    requires lvl0 <= |productOrders| && ProductSchedule(productOrders[lvl0..], size0)
    ensures t == t0 + 1
    ensures Inv(vals, leafOrder, t, slots, size, b, cur, atLeaves, levelSent)
    ensures lvl <= |productOrders| && ProductSchedule(productOrders[lvl..], size)
    ensures m == |vals| - size + b / 2 && |sent| == 4 * (m - m0)
    ensures size >= 2 ==> atLeaves && t < |batch|
  {
    var id := leafOrder[t0];
    NextIsFresh(leafOrder, |batch|, t0);
    LeafReply(batch, id);
    PullKeepsInv(vals, leafOrder, t0, slots0, size0, b0, cur0, levelSent0, Serve(batch[id]));
    t := t0 + 1;
    slots, size, b, cur, atLeaves, levelSent, sent, lvl, m :=
      MergeReadyWindowsV2(vals, leafOrder, t, slots0[id := Serve(batch[id])], size0, b0, cur0, true,
                          levelSent0, productOrders, lvl0, m0);
    if size >= 2 {
      BlockedMeansMore(vals, leafOrder, t, slots, size, b, cur, atLeaves, levelSent);
    }
  }

  /** ComputePQTMasterV2 (chudnovsky.cpp:240-277). Leaf replies arrive in
      `leafOrder`; the product replies of level l arrive in `productOrders[l]`.
      The result is the in-order combination of all leaf triples, after
      |batch|-1 windows of four product requests each. */
  method ComputePQTMasterV2(batch: seq<ReqPack>, leafOrder: seq<nat>, productOrders: seq<seq<nat>>)
    returns (result: Triple, sent: seq<ReqPack>)
    requires IsLeafBatch(batch) && IsPow2(|batch|)
    requires IsOrder(leafOrder, |batch|)
    requires ProductSchedule(productOrders, |batch|)
    ensures result == CombineAll(BatchValues(batch))
    ensures |sent| == 4 * (|batch| - 1)
  {
    var bn := |batch|;
    ghost var vals := BatchValues(batch);
    var slots := seq(bn, _ => NewResp());
    var b: nat := 0;
    var size: nat := bn;
    ghost var cur := vals;
    ghost var atLeaves := true;
    var levelSent: seq<ReqPack> := [];
    var t: nat := 0;
    var m: nat := 0;
    var lvl: nat := 0;
    sent := [];
    InitInv(vals, leafOrder);
    assert productOrders[0..] == productOrders;
    while true
      invariant Inv(vals, leafOrder, t, slots, size, b, cur, atLeaves, levelSent)
      invariant lvl <= |productOrders| && ProductSchedule(productOrders[lvl..], size)
      invariant atLeaves && t < bn
      invariant m == bn - size + b / 2 && |sent| == 4 * m
      decreases bn - t
    {
      var more, m', t';
      slots, size, b, cur, atLeaves, levelSent, more, lvl, m', t' :=
        PullAndMergeV2(batch, vals, leafOrder, t, slots, size, b, cur, levelSent, productOrders, lvl, m);
      sent, m, t := sent + more, m', t';
      if size == 1 {
        break;
      }
    }
    FinalSlot(vals, leafOrder, t, slots, b, cur, atLeaves, levelSent);
    assert size - 1 == 0;
    result := slots[size - 1].result.value;
  }

  /** PQTMasterV2 (chudnovsky.cpp:226-236): issue the batches, then reduce them.
      The result is the triple of the whole interval [0, batchNum*batchSize). */
  method PQTMasterV2(batchNum: nat, batchSize: int, leafOrder: seq<nat>, productOrders: seq<seq<nat>>)
    returns (result: Triple, issued: seq<ReqPack>, sent: seq<ReqPack>)
    requires IsPow2(batchNum) && batchSize >= 1
    requires IsOrder(leafOrder, batchNum)
    requires ProductSchedule(productOrders, batchNum)
    ensures |issued| == batchNum && IsLeafBatch(issued)
    ensures result == ComputePQT(0, batchNum * batchSize)
    ensures |sent| == 4 * (batchNum - 1)
  {
    issued := IssueBatches(batchNum, batchSize);
    IssuedBatchFold(issued, batchSize);
    result, sent := ComputePQTMasterV2(issued, leafOrder, productOrders);
  }
}
