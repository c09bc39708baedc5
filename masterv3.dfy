/** Version 3 of the concurrent reduction (chudnovsky.cpp:350-440): as in
    version 2 the master sends the products of each ready window and empties
    it, but the collector hands each assembled window back to the workers as a
    Combine2 request; their replies come back on the compute queue, so every
    level fills its slots by arrival, like the leaf level. */
module MasterV3 {
  import opened Pqt
  import opened Levels
  import opened Envelopes
  import opened Worker
  import opened Reduction
  import MasterV2

  /** Combine2PQTSenderV3 (chudnovsky.cpp:433-440): one Combine2 request with id
      `id` carrying the four products of the window at `index`, which is then emptied. */
  method Combine2PQTSenderV3(id: nat, products: seq<RespPack>, index: nat)
    returns (req: ReqPack, products': seq<RespPack>)
    requires index + 4 <= |products|
    requires forall j :: index <= j < index + 4 ==> products[j].a.Some?
    ensures req == Combine2Req(id, products[index].a.value, products[index + 1].a.value,
                               products[index + 2].a.value, products[index + 3].a.value)
    ensures Servable(req) && Serve(req).result == Some(CombinePQTMergerV2(products, index))
    ensures |products'| == |products|
    ensures forall j :: 0 <= j < |products| ==>
      products'[j] == if index <= j < index + 4 then products[j].Invalidate() else products[j]
  {
    req := Combine2Req(id, products[index].a.value, products[index + 1].a.value,
                       products[index + 2].a.value, products[index + 3].a.value);
    products' := products[index := products[index].Invalidate()];
    products' := products'[index + 1 := products'[index + 1].Invalidate()];
    products' := products'[index + 2 := products'[index + 2].Invalidate()];
    products' := products'[index + 3 := products'[index + 3].Invalidate()];
  }

  /** One ready window of the collector (chudnovsky.cpp:416-418): its Combine2
      request answers with parent node b/4, and the window can move on. */
  method SendWindowV3(size: nat, ghost cur: seq<Triple>, outstanding: seq<ReqPack>,
                      ghost order: seq<nat>, ghost t: nat, products0: seq<RespPack>, b: nat,
                      sent0: seq<ReqPack>)
    returns (products: seq<RespPack>, sent: seq<ReqPack>)
    requires |cur| == 2 * size
    requires outstanding == LevelRequests(cur, size)
    requires b % 4 == 0 && b + 4 <= 4 * size
    requires ProductSlots(outstanding, order, t, products0, b) && AllValid(products0, b, b + 3)
    requires Answers(sent0, Pairwise(cur)[..b / 4])
    ensures Answers(sent, Pairwise(cur)[..b / 4 + 1])
    ensures ProductSlots(outstanding, order, t, products, b + 4)
  {
    var id := b / 4;
    assert 4 * id == b;
    ProductWindowReady(cur, size, order, t, products0, id);
    var req;
    req, products := Combine2PQTSenderV3(id, products0, b);
    assert Pairwise(cur)[id] == Combine(cur[2 * id], cur[2 * id + 1]);
    AnswersExtend(sent0, Pairwise(cur), id, req);
    sent := sent0 + [req];
    ProductWindowAdvance(outstanding, order, t, products0, b, products);
  }

  /** The window loop of the collector (chudnovsky.cpp:416-427): while the window
      of four replies is complete, send its Combine2 request and move on; stop
      after the last window (`done`) or at a window still waiting for a reply. */
  method CollectReadyWindowsV3(size: nat, ghost cur: seq<Triple>, outstanding: seq<ReqPack>,
                               ghost order: seq<nat>, ghost t: nat, products0: seq<RespPack>, b0: nat,
                               sent0: seq<ReqPack>)
    returns (products: seq<RespPack>, b: nat, sent: seq<ReqPack>, done: bool)
    requires size >= 1 && |cur| == 2 * size
    requires outstanding == LevelRequests(cur, size)
    requires b0 % 4 == 0 && b0 + 4 <= 4 * size
    requires ProductSlots(outstanding, order, t, products0, b0)
    requires Answers(sent0, Pairwise(cur)[..b0 / 4])
    ensures b % 4 == 0 && b + 4 <= 4 * size
    ensures done ==> Answers(sent, Pairwise(cur))
    ensures !done ==> ProductSlots(outstanding, order, t, products, b)
    ensures !done ==> !AllValid(products, b, b + 3) && Answers(sent, Pairwise(cur)[..b / 4])
  {
    var n := 4 * size;
    products, b, sent, done := products0, b0, sent0, false;
    var e := b + 3;
    var ready := e < n;
    if ready {
      ready := CombinePQTCheckResultV2(products, b, e);
    }
    while ready
      invariant b % 4 == 0 && e == b + 3 && e < n
      invariant ProductSlots(outstanding, order, t, products, b)
      invariant Answers(sent, Pairwise(cur)[..b / 4])
      invariant ready <==> AllValid(products, b, e)
      decreases n - b
    {
      products, sent := SendWindowV3(size, cur, outstanding, order, t, products, b, sent);
      if e == n - 1 {
        assert b / 4 + 1 == size;
        assert Pairwise(cur)[..b / 4 + 1] == Pairwise(cur);
        done := true;
        return;
      }
      assert (b + 4) / 4 == b / 4 + 1;
      b, e := b + 4, e + 4;
      ready := CombinePQTCheckResultV2(products, b, e);
    }
  }

  /** CombinePQTMasterV3 (chudnovsky.cpp:407-429): the collector of one level.
      `outstanding` are the level's product requests, by id; their replies arrive
      in `order`. It returns after the last window, having sent one Combine2
      request per parent slot, whose reply carries the merge of nodes 2k and 2k+1. */
  method CombinePQTMasterV3(size: nat, ghost cur: seq<Triple>, outstanding: seq<ReqPack>, order: seq<nat>)
    returns (sent: seq<ReqPack>)
    requires size >= 1 && |cur| == 2 * size
    requires outstanding == LevelRequests(cur, size)
    requires IsOrder(order, 4 * size)
    ensures Answers(sent, Pairwise(cur))
  {
    var n := 4 * size;
    LevelRequestsServable(cur, size);
    var products := seq(n, _ => NewResp());
    var b: nat := 0;
    var t: nat := 0;
    sent := [];
    while true
      invariant t < n
      invariant b % 4 == 0 && b + 4 <= n
      invariant ProductSlots(outstanding, order, t, products, b)
      invariant Answers(sent, Pairwise(cur)[..b / 4])
      decreases n - t
    {
      ProductArrives(outstanding, order, t, products, b);
      var id := order[t];
      products := products[id := Serve(outstanding[id])];
      t := t + 1;
      var done;
      products, b, sent, done := CollectReadyWindowsV3(size, cur, outstanding, order, t, products, b, sent);
      if done {
        return;
      }
      ProductWindowBlocked(outstanding, order, t, products, b);
    }
  }

  // ---- the master ----

  /** The slots left of the window have been emptied by the sender. */
  ghost predicate Emptied(slots: seq<RespPack>, b: nat)
  {
    b <= |slots| && forall j :: 0 <= j < b ==> !slots[j].IsValid()
  }

  /** The state of the master between two steps. Every level fills its slots by
      arrival: `pending` are the requests whose replies carry the level's nodes,
      arriving in `order`; slots left of the window have been emptied. */
  ghost predicate Inv(vals: seq<Triple>, order: seq<nat>, t: nat, slots: seq<RespPack>, size: nat, b: nat,
                      cur: seq<Triple>, levelSent: seq<ReqPack>, pending: seq<ReqPack>)
  {
    && |slots| == size && 1 <= size <= |vals| && |cur| == size && IsPow2(size)
    && CombineAll(cur) == CombineAll(vals)
    && b % 2 == 0 && (size >= 2 ==> b + 1 < size) && (size == 1 ==> b == 0)
    && levelSent == LevelRequests(cur, b / 2)
    && Answers(pending, cur)
    && IsOrder(order, size)
    && LeafSlots(cur, order, t, slots, b)
    && Emptied(slots, b)
  }

  lemma InitInv(vals: seq<Triple>, order: seq<nat>, pending: seq<ReqPack>)
    requires IsPow2(|vals|) && IsOrder(order, |vals|) && Answers(pending, vals)
    ensures Inv(vals, order, 0, seq(|vals|, _ => NewResp()), |vals|, 0, vals, [], pending)
  {
  }

  /** Storing the next arrival at its id keeps the invariant. */
  lemma PullKeepsInv(vals: seq<Triple>, order: seq<nat>, t: nat, slots: seq<RespPack>, size: nat, b: nat,
                     cur: seq<Triple>, levelSent: seq<ReqPack>, pending: seq<ReqPack>)
    requires Inv(vals, order, t, slots, size, b, cur, levelSent, pending) && t < size
    ensures order[t] < size && Servable(pending[order[t]])
    ensures Inv(vals, order, t + 1, slots[order[t] := Serve(pending[order[t]])], size, b, cur, levelSent, pending)
  {
    LeafArrives(cur, order, t, slots, b, Serve(pending[order[t]]));
  }

  /** A ready window holds the two nodes it merges. */
  lemma ReadyWindowHolds(vals: seq<Triple>, order: seq<nat>, t: nat, slots: seq<RespPack>, size: nat, b: nat,
                         cur: seq<Triple>, levelSent: seq<ReqPack>, pending: seq<ReqPack>)
    requires Inv(vals, order, t, slots, size, b, cur, levelSent, pending)
    requires b + 1 < size && slots[b].IsValid() && slots[b + 1].IsValid()
    ensures Holds(slots[b], b, cur[b]) && Holds(slots[b + 1], b + 1, cur[b + 1])
  {
  }

  /** Sending the products of a window that is not the level's last and
      emptying it keeps the invariant with the window moved on. */
  lemma SendKeepsInv(vals: seq<Triple>, order: seq<nat>, t: nat, slots: seq<RespPack>, size: nat, b: nat,
                     cur: seq<Triple>, levelSent: seq<ReqPack>, pending: seq<ReqPack>, slots': seq<RespPack>)
    requires Inv(vals, order, t, slots, size, b, cur, levelSent, pending)
    requires b + 1 < size - 1 && slots[b].IsValid() && slots[b + 1].IsValid()
    requires |slots'| == |slots| && !slots'[b].IsValid() && !slots'[b + 1].IsValid()
    requires forall j :: 0 <= j < |slots| && j != b && j != b + 1 ==> slots'[j] == slots[j]
    ensures Inv(vals, order, t, slots', size, b + 2, cur, levelSent + ProductRequests(2 * b, cur[b], cur[b + 1]), pending)
  {
    LevelRequestsGrow(cur, b);
    assert (b + 2) / 2 == b / 2 + 1;
    LeafWindowAdvance(cur, order, t, slots, b, slots');
    assert Emptied(slots', b + 2);
  }

  /** After the products of the level's last window are sent, every slot is empty. */
  lemma SendEmptiesLevel(vals: seq<Triple>, order: seq<nat>, t: nat, slots: seq<RespPack>, size: nat, b: nat,
                         cur: seq<Triple>, levelSent: seq<ReqPack>, pending: seq<ReqPack>, slots': seq<RespPack>)
    requires Inv(vals, order, t, slots, size, b, cur, levelSent, pending)
    requires b + 1 == size - 1
    requires |slots'| == |slots| && !slots'[b].IsValid() && !slots'[b + 1].IsValid()
    requires forall j :: 0 <= j < |slots| && j != b && j != b + 1 ==> slots'[j] == slots[j]
    ensures forall j :: 0 <= j < size ==> !slots'[j].IsValid()
  {
  }

  /** The end of a level (chudnovsky.cpp:388-395): halve the slot vector and let
      the collector send one Combine2 request per node of the next level; the
      products arrive in the level's product order, and the Combine2 replies in
      the next compute order. */
  method NextLevelV3(ghost vals: seq<Triple>, compOrders: seq<seq<nat>>, productOrders: seq<seq<nat>>, lvl0: nat,
                     slots: seq<RespPack>, ghost cur: seq<Triple>, levelSent: seq<ReqPack>)
    returns (parent: seq<RespPack>, pending: seq<ReqPack>, lvl: nat)
    requires |slots| == |cur| && 2 <= |cur| <= |vals| && IsPow2(|cur|)
    requires CombineAll(cur) == CombineAll(vals)
    requires forall j :: 0 <= j < |slots| ==> !slots[j].IsValid()
    requires levelSent == LevelRequests(cur, |cur| / 2)
    requires lvl0 < |compOrders| && ArrivalSchedule(compOrders[lvl0..], |cur|)
    requires lvl0 <= |productOrders| && ProductSchedule(productOrders[lvl0..], |cur|)
    ensures lvl == lvl0 + 1 && lvl < |compOrders| && ArrivalSchedule(compOrders[lvl..], |cur| / 2)
    ensures lvl <= |productOrders| && ProductSchedule(productOrders[lvl..], |cur| / 2)
    ensures |pending| == |cur| / 2
    ensures Inv(vals, compOrders[lvl], 0, parent, |cur| / 2, 0, Pairwise(cur), [], pending)
  {
    ScheduleAdvance(compOrders, productOrders, lvl0, |cur|);
    HalfIsPow2(|cur|);
    PairwisePreservesFold(cur);
    var size := |slots| / 2;
    parent := slots[..size];
    pending := CombinePQTMasterV3(size, cur, levelSent, productOrders[lvl0]);
    lvl := lvl0 + 1;
  }

  /** The sizes of what the master has sent: four products per window and one
      Combine2 request per node of every level above the leaves. */
  function SentCount(bn: int, size: int, b: int): int
  {
    4 * (bn - size + b / 2) + (bn - size)
  }

  lemma SentCountStep(bn: int, size: int, b: int)
    requires size >= 2 && size % 2 == 0 && b % 2 == 0 && b + 2 <= size
    ensures b + 2 < size ==> SentCount(bn, size, b + 2) == SentCount(bn, size, b) + 4
    ensures b + 2 == size ==> SentCount(bn, size / 2, 0) == SentCount(bn, size, b) + 4 + size / 2
  {
  }

  /** Going up a level moves both schedules on by one order. */
  lemma ScheduleAdvance(compOrders: seq<seq<nat>>, productOrders: seq<seq<nat>>, lvl: nat, size: nat)
    requires size >= 2
    requires lvl < |compOrders| && ArrivalSchedule(compOrders[lvl..], size)
    requires lvl <= |productOrders| && ProductSchedule(productOrders[lvl..], size)
    ensures lvl < |productOrders| && IsOrder(productOrders[lvl], 4 * (size / 2))
    ensures lvl + 1 < |compOrders| && ArrivalSchedule(compOrders[lvl + 1..], size / 2)
    ensures IsOrder(compOrders[lvl + 1], size / 2)
    ensures lvl + 1 <= |productOrders| && ProductSchedule(productOrders[lvl + 1..], size / 2)
  {
    assert compOrders[lvl..][1..] == compOrders[lvl + 1..];
    assert productOrders[lvl..][1..] == productOrders[lvl + 1..];
  }

  /** The sender call of the inner loop (chudnovsky.cpp:378): the window's four
      products extend the requests of the level, and the emptied window moves on;
      after the last window of a level, every slot is empty. */
  method SendProductsV3(ghost vals: seq<Triple>, ghost order: seq<nat>, ghost t: nat,
                        slots0: seq<RespPack>, size: nat, b: nat, ghost cur: seq<Triple>,
                        levelSent0: seq<ReqPack>, ghost pending: seq<ReqPack>)
    returns (slots: seq<RespPack>, levelSent: seq<ReqPack>, sent: seq<ReqPack>)
    requires Inv(vals, order, t, slots0, size, b, cur, levelSent0, pending)
    requires b + 1 < size && slots0[b].IsValid() && slots0[b + 1].IsValid()
    ensures |sent| == 4 && levelSent == levelSent0 + sent && levelSent == LevelRequests(cur, b / 2 + 1)
    ensures b + 1 != size - 1 ==> Inv(vals, order, t, slots, size, b + 2, cur, levelSent, pending)
    ensures b + 1 == size - 1 ==> |slots| == size && forall j :: 0 <= j < size ==> !slots[j].IsValid()
  {
    ReadyWindowHolds(vals, order, t, slots0, size, b, cur, levelSent0, pending);
    var r1, r2;
    sent, r1, r2 := MasterV2.CombinePQTSenderV2(slots0[b], slots0[b + 1]);
    slots := slots0[b := r1][b + 1 := r2];
    LevelRequestsGrow(cur, b);
    if b + 1 != size - 1 {
      SendKeepsInv(vals, order, t, slots0, size, b, cur, levelSent0, pending, slots);
    } else {
      SendEmptiesLevel(vals, order, t, slots0, size, b, cur, levelSent0, pending, slots);
    }
    levelSent := levelSent0 + sent;
  }

  /** The last window of a level (chudnovsky.cpp:378, 388-395): send its
      products, then run the collector and move to the next level, whose count
      of arrivals starts again at zero. */
  method SendLastPairV3(ghost vals: seq<Triple>, compOrders: seq<seq<nat>>, ghost t: nat,
                        slots0: seq<RespPack>, size0: nat, b: nat, ghost cur0: seq<Triple>,
                        levelSent0: seq<ReqPack>, ghost pending0: seq<ReqPack>,
                        productOrders: seq<seq<nat>>, lvl0: nat)
    returns (slots: seq<RespPack>, size: nat, ghost cur: seq<Triple>, pending: seq<ReqPack>,
             sent: seq<ReqPack>, lvl: nat)
    requires lvl0 < |compOrders| && ArrivalSchedule(compOrders[lvl0..], size0)
    requires lvl0 <= |productOrders| && ProductSchedule(productOrders[lvl0..], size0)
    requires size0 >= 2 && b + 1 == size0 - 1 && Inv(vals, compOrders[lvl0], t, slots0, size0, b, cur0, levelSent0, pending0)
    requires slots0[b].IsValid() && slots0[b + 1].IsValid()
    ensures size == size0 / 2 && lvl == lvl0 + 1
    ensures lvl < |compOrders| && ArrivalSchedule(compOrders[lvl..], size)
    ensures lvl <= |productOrders| && ProductSchedule(productOrders[lvl..], size)
    ensures Inv(vals, compOrders[lvl], 0, slots, size, 0, cur, [], pending)
    ensures |sent| == 4 + size
  {
    var levelSent, more;
    slots, levelSent, more := SendProductsV3(vals, compOrders[lvl0], t, slots0, size0, b, cur0, levelSent0, pending0);
    slots, pending, lvl := NextLevelV3(vals, compOrders, productOrders, lvl0, slots, cur0, levelSent);
    sent := more + pending;
    size := size0 / 2;
    cur := Pairwise(cur0);
  }

  /** The inner loop of the master (chudnovsky.cpp:376-396) while it stays
      inside a level: send the products of every ready window but the last. */
  method SendWithinLevelV3(ghost vals: seq<Triple>, ghost order: seq<nat>, ghost t: nat,
                           slots0: seq<RespPack>, size: nat, b0: nat, ghost cur: seq<Triple>,
                           levelSent0: seq<ReqPack>, ghost pending: seq<ReqPack>)
    returns (slots: seq<RespPack>, b: nat, levelSent: seq<ReqPack>, sent: seq<ReqPack>)
    requires Inv(vals, order, t, slots0, size, b0, cur, levelSent0, pending)
    ensures Inv(vals, order, t, slots, size, b, cur, levelSent, pending)
    ensures SentCount(|vals|, size, b) == SentCount(|vals|, size, b0) + |sent|
    ensures size >= 2 && b + 1 != size - 1 ==> !(slots[b].IsValid() && slots[b + 1].IsValid())
  {
    slots, b, levelSent, sent := slots0, b0, levelSent0, [];
    while b + 1 < size - 1 && slots[b].IsValid() && slots[b + 1].IsValid()
      invariant SentCount(|vals|, size, b) == SentCount(|vals|, size, b0) + |sent|
      invariant Inv(vals, order, t, slots, size, b, cur, levelSent, pending)
      decreases size - b
    {
      slots, b, levelSent, sent := SendStepV3(vals, order, t, slots, size, b, cur, levelSent, pending, b0, sent);
    }
  }

  /** One round of SendWithinLevelV3: send the ready window's products and
      move the window two slots on, counting the four requests sent. */
  method SendStepV3(ghost vals: seq<Triple>, ghost order: seq<nat>, ghost t: nat,
                    slots0: seq<RespPack>, size: nat, b0: nat, ghost cur: seq<Triple>,
                    levelSent0: seq<ReqPack>, ghost pending: seq<ReqPack>, bStart: nat, sent0: seq<ReqPack>)
    returns (slots: seq<RespPack>, b: nat, levelSent: seq<ReqPack>, sent: seq<ReqPack>)
    requires Inv(vals, order, t, slots0, size, b0, cur, levelSent0, pending)
    requires b0 + 1 < size - 1 && slots0[b0].IsValid() && slots0[b0 + 1].IsValid()
    requires SentCount(|vals|, size, b0) == SentCount(|vals|, size, bStart) + |sent0|
    ensures b == b0 + 2
    ensures Inv(vals, order, t, slots, size, b, cur, levelSent, pending)
    ensures SentCount(|vals|, size, b) == SentCount(|vals|, size, bStart) + |sent|
  {
    SentCountStep(|vals|, size, b0);
    var more;
    slots, levelSent, more := SendProductsV3(vals, order, t, slots0, size, b0, cur, levelSent0, pending);
    sent := sent0 + more;
    b := b0 + 2;
  }

  /** The inner loop of the master (chudnovsky.cpp:376-396): while the window is
      ready, send its products and move on; after a level's last window, the
      collector runs and the loop stops, the next level still to arrive. */
  method MergeReadyWindowsV3(ghost vals: seq<Triple>, compOrders: seq<seq<nat>>, t0: nat,
                             slots0: seq<RespPack>, size0: nat, b0: nat, ghost cur0: seq<Triple>,
                             levelSent0: seq<ReqPack>, pending0: seq<ReqPack>,
                             productOrders: seq<seq<nat>>, lvl0: nat)
    returns (slots: seq<RespPack>, size: nat, b: nat, ghost cur: seq<Triple>, levelSent: seq<ReqPack>,
             pending: seq<ReqPack>, sent: seq<ReqPack>, lvl: nat, t: nat)
    requires lvl0 < |compOrders| && ArrivalSchedule(compOrders[lvl0..], size0)
    requires lvl0 <= |productOrders| && ProductSchedule(productOrders[lvl0..], size0)
    requires Inv(vals, compOrders[lvl0], t0, slots0, size0, b0, cur0, levelSent0, pending0)
    ensures lvl < |compOrders| && ArrivalSchedule(compOrders[lvl..], size)
    ensures lvl <= |productOrders| && ProductSchedule(productOrders[lvl..], size)
    ensures Inv(vals, compOrders[lvl], t, slots, size, b, cur, levelSent, pending)
    ensures SentCount(|vals|, size, b) == SentCount(|vals|, size0, b0) + |sent|
    ensures || (size == size0 && t == t0 && (size >= 2 ==> !(slots[b].IsValid() && slots[b + 1].IsValid())))
            || (size == size0 / 2 && size < size0 && t == 0)
  {
    slots, b, levelSent, sent := SendWithinLevelV3(vals, compOrders[lvl0], t0, slots0, size0, b0, cur0, levelSent0, pending0);
    if size0 >= 2 && b + 1 == size0 - 1 && slots[b].IsValid() && slots[b + 1].IsValid() {
      SentCountStep(|vals|, size0, b);
      var more;
      slots, size, cur, pending, more, lvl := SendLastPairV3(vals, compOrders, t0, slots, size0, b, cur0, levelSent,
                                                             pending0, productOrders, lvl0);
      sent := sent + more;
      levelSent := [];
      b := 0;
      t := 0;
    } else {
      size, cur, pending, lvl, t := size0, cur0, pending0, lvl0, t0;
    }
  }

  /** Until the single top slot is filled, some reply of the level is still to come. */
  lemma NotDoneMeansMore(vals: seq<Triple>, order: seq<nat>, t: nat, slots: seq<RespPack>, size: nat, b: nat,
                         cur: seq<Triple>, levelSent: seq<ReqPack>, pending: seq<ReqPack>)
    requires Inv(vals, order, t, slots, size, b, cur, levelSent, pending)
    requires size >= 2 ==> !(slots[b].IsValid() && slots[b + 1].IsValid())
    requires size == 1 ==> !slots[0].IsValid()
    ensures t < size
  {
    if size >= 2 {
      WindowBlocked(cur, order, t, slots, b);
    } else {
      MissingMeansMore(order, size, t, 0);
    }
  }

  /** The filled top slot holds the combination of all leaves. */
  lemma FinalSlot(vals: seq<Triple>, order: seq<nat>, t: nat, slots: seq<RespPack>, b: nat,
                  cur: seq<Triple>, levelSent: seq<ReqPack>, pending: seq<ReqPack>)
    requires Inv(vals, order, t, slots, 1, b, cur, levelSent, pending) && slots[0].IsValid()
    ensures slots[0].result == Some(CombineAll(vals))
  {
    CombineAllSingle(cur[0]);
  }

  /** One round of the master loop (chudnovsky.cpp:370-400): pull the next reply
      on the compute queue, store it by id, and send whatever has become ready. */
  method PullAndMergeV3(ghost vals: seq<Triple>, compOrders: seq<seq<nat>>, t0: nat,
                        slots0: seq<RespPack>, size0: nat, b0: nat, ghost cur0: seq<Triple>,
                        levelSent0: seq<ReqPack>, pending0: seq<ReqPack>,
                        productOrders: seq<seq<nat>>, lvl0: nat)
    returns (slots: seq<RespPack>, size: nat, b: nat, ghost cur: seq<Triple>, levelSent: seq<ReqPack>,
             pending: seq<ReqPack>, sent: seq<ReqPack>, lvl: nat, t: nat)
    requires lvl0 < |compOrders| && ArrivalSchedule(compOrders[lvl0..], size0)
    requires lvl0 <= |productOrders| && ProductSchedule(productOrders[lvl0..], size0)
    requires Inv(vals, compOrders[lvl0], t0, slots0, size0, b0, cur0, levelSent0, pending0) && t0 < size0
    ensures lvl < |compOrders| && ArrivalSchedule(compOrders[lvl..], size)
    ensures lvl <= |productOrders| && ProductSchedule(productOrders[lvl..], size)
    ensures Inv(vals, compOrders[lvl], t, slots, size, b, cur, levelSent, pending)
    ensures SentCount(|vals|, size, b) == SentCount(|vals|, size0, b0) + |sent|
    ensures size < size0 || (size == size0 && t == t0 + 1)
    ensures !(size == 1 && slots[0].IsValid()) ==> t < size
  {
    var order := compOrders[lvl0];
    PullKeepsInv(vals, order, t0, slots0, size0, b0, cur0, levelSent0, pending0);
    var id := order[t0];
    slots, size, b, cur, levelSent, pending, sent, lvl, t :=
      MergeReadyWindowsV3(vals, compOrders, t0 + 1, slots0[id := Serve(pending0[id])], size0, b0, cur0,
                          levelSent0, pending0, productOrders, lvl0);
    if !(size == 1 && slots[0].IsValid()) && size == size0 {
      NotDoneMeansMore(vals, compOrders[lvl], t, slots, size, b, cur, levelSent, pending);
    }
  }

  /** ComputePQTMasterV3 (chudnovsky.cpp:364-403). Replies on the compute queue
      arrive in `compOrders[l]` at level l (the leaves at level 0, then the
      Combine2 replies); the product replies of level l arrive in
      `productOrders[l]`. The loop ends once the single top slot is filled, with
      the in-order combination of all leaf triples, after sending four products
      per merge and one Combine2 request per merged node. */
  method ComputePQTMasterV3(batch: seq<ReqPack>, compOrders: seq<seq<nat>>, productOrders: seq<seq<nat>>)
    returns (result: Triple, sent: seq<ReqPack>)
    requires IsLeafBatch(batch) && IsPow2(|batch|)
    requires ArrivalSchedule(compOrders, |batch|)
    requires ProductSchedule(productOrders, |batch|)
    ensures result == CombineAll(BatchValues(batch))
    ensures |sent| == 5 * (|batch| - 1)
  {
    var bn := |batch|;
    ghost var vals := BatchValues(batch);
    var slots := seq(bn, _ => NewResp());
    var b: nat := 0;
    var size: nat := bn;
    ghost var cur := vals;
    var levelSent: seq<ReqPack> := [];
    var pending := batch;
    var t: nat := 0;
    var lvl: nat := 0;
    sent := [];
    BatchAnswers(batch);
    InitInv(vals, compOrders[0], batch);
    assert compOrders[0..] == compOrders;
    assert productOrders[0..] == productOrders;
    while true
      invariant lvl < |compOrders| && ArrivalSchedule(compOrders[lvl..], size)
      invariant lvl <= |productOrders| && ProductSchedule(productOrders[lvl..], size)
      invariant Inv(vals, compOrders[lvl], t, slots, size, b, cur, levelSent, pending)
      invariant SentCount(bn, size, b) == |sent|
      invariant t < size
      decreases size, size - t
    {
      var more;
      slots, size, b, cur, levelSent, pending, more, lvl, t :=
        PullAndMergeV3(vals, compOrders, t, slots, size, b, cur, levelSent, pending, productOrders, lvl);
      sent := sent + more;
      if size == 1 && slots[0].IsValid() {
        break;
      }
    }
    FinalSlot(vals, compOrders[lvl], t, slots, b, cur, levelSent, pending);
    assert size - 1 == 0;
    result := slots[size - 1].result.value;
  }

  /** PQTMasterV3 (chudnovsky.cpp:350-360): issue the batches, then reduce them.
      The result is the triple of the whole interval [0, batchNum*batchSize). */
  method PQTMasterV3(batchNum: nat, batchSize: int, compOrders: seq<seq<nat>>, productOrders: seq<seq<nat>>)
    returns (result: Triple, issued: seq<ReqPack>, sent: seq<ReqPack>)
    requires IsPow2(batchNum) && batchSize >= 1
    requires ArrivalSchedule(compOrders, batchNum)
    requires ProductSchedule(productOrders, batchNum)
    ensures |issued| == batchNum && IsLeafBatch(issued)
    ensures result == ComputePQT(0, batchNum * batchSize)
    ensures |sent| == 5 * (batchNum - 1)
  {
    issued := IssueBatches(batchNum, batchSize);
    IssuedBatchFold(issued, batchSize);
    result, sent := ComputePQTMasterV3(issued, compOrders, productOrders);
  }
}
