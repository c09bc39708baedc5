/** The older single-file implementation (chudnovsky.seqbak.cpp): value-typed
    envelopes, one pool of workers that compute leaf triples and one that
    multiplies, and a master that folds the leaf replies from left to right
    through a window of two adjacent slots. Ids of -1 mark an empty slot or a
    terminate request. */
module SeqBak {
  import opened Pqt
  import opened Levels
  import opened Envelopes
  import Reduction

  /** ReqPack of chudnovsky.seqbak.cpp:21-38; `kind` is the int `_type`. */
  datatype SeqReq = SeqReq(id: int, n1: int, n2: int, kind: int, a: int, b: int)

  /** RespPack of chudnovsky.seqbak.cpp:40-60, holding its triple by value. */
  datatype SeqResp = SeqResp(id: int, n1: int, n2: int, result: Triple, kind: int, a: int)

  /** The id of an empty slot or a terminate request; also the value this model
      gives to int fields a constructor leaves unset. */
  const Unset: int := -1

  /** A default-constructed triple: three zero big integers. */
  const Empty: Triple := Triple(0, 0, 0)

  // ---- constructors (chudnovsky.seqbak.cpp:28-31, 48-53) ----

  /** The default request, which terminates a worker. */
  function TerminateReq(): (r: SeqReq)
    ensures r.id == Unset && r.n1 == Unset && r.n2 == Unset && r.kind == Unset
    ensures r.a == 0 && r.b == 0
  {
    SeqReq(Unset, Unset, Unset, Unset, 0, 0)
  }

  /** A request for the triple of [n1, n2), of type 0. */
  function LeafReq(id: int, n1: int, n2: int): (r: SeqReq)
    ensures r.id == id && r.n1 == n1 && r.n2 == n2 && r.kind == 0
    ensures r.a == 0 && r.b == 0
  {
    SeqReq(id, n1, n2, 0, 0, 0)
  }

  /** A request for the product a * b; the interval and type are left unset. */
  function OperandReq(id: int, a: int, b: int): (r: SeqReq)
    ensures r.id == id && r.a == a && r.b == b
    ensures r.n1 == Unset && r.n2 == Unset && r.kind == Unset
  {
    SeqReq(id, Unset, Unset, Unset, a, b)
  }

  /** The default response: an empty slot holding the all-zero triple. */
  function EmptyResp(): (r: SeqResp)
    ensures r.id == Unset && r.n1 == Unset && r.n2 == Unset && r.kind == Unset
    ensures r.result == Empty && r.a == 0
  {
    SeqResp(Unset, Unset, Unset, Empty, Unset, 0)
  }

  /** A merged triple for [n1, n2) under the given id, of type 0. */
  function MergedResp(id: int, n1: int, n2: int, result: Triple): (r: SeqResp)
    ensures r.id == id && r.n1 == n1 && r.n2 == n2 && r.result == result
    ensures r.kind == 0 && r.a == 0
  {
    SeqResp(id, n1, n2, result, 0, 0)
  }

  /** The answer to a leaf request: copies its id, interval and type. */
  function ReplyLeaf(req: SeqReq, result: Triple): (r: SeqResp)
    ensures r.id == req.id && r.n1 == req.n1 && r.n2 == req.n2 && r.kind == req.kind
    ensures r.result == result && r.a == 0
  {
    SeqResp(req.id, req.n1, req.n2, result, req.kind, 0)
  }

  /** The answer to an operand request: copies only its id. */
  function ReplyOperand(req: SeqReq, a: int): (r: SeqResp)
    ensures r.id == req.id && r.a == a
    ensures r.n1 == Unset && r.n2 == Unset && r.kind == Unset && r.result == Empty
  {
    SeqResp(req.id, Unset, Unset, Empty, Unset, a)
  }

  // ---- workers (chudnovsky.seqbak.cpp:210-258) ----

  datatype Pool = ComputePool | CombinePool

  datatype WorkerStep = Halt | Publish(resp: SeqResp)

  /** A compute worker works on any request with a non-empty interval, whatever its type. */
  predicate Answerable(pool: Pool, req: SeqReq)
  {
    pool == ComputePool && req.id != Unset ==> req.n1 < req.n2
  }

  /** One request of a worker loop: the terminate marker stops the worker; a
      compute worker replies with the triple of the request's interval, a
      combine worker with the product of the two operands. */
  function WorkerStepOf(pool: Pool, req: SeqReq): (s: WorkerStep)
    requires Answerable(pool, req)
    ensures s.Halt? <==> req.id == Unset
    ensures s.Publish? ==> s.resp.id == req.id
    ensures s.Publish? && pool == ComputePool ==>
      s.resp.n1 == req.n1 && s.resp.n2 == req.n2 && s.resp.result == CombineAll(Leaves(req.n1, req.n2))
    ensures s.Publish? && pool == CombinePool ==> s.resp.a == req.a * req.b
  {
    if req.id == Unset then Halt
    else if pool == ComputePool then
      ComputeIsFold(req.n1, req.n2);
      Publish(ReplyLeaf(req, ComputePQT(req.n1, req.n2)))
    else Publish(ReplyOperand(req, req.a * req.b))
  }

  /** Index just past the first terminate request, or the whole input when there is none. */
  function HaltIndex(reqs: seq<SeqReq>): (k: nat)
    ensures k <= |reqs|
    ensures forall i :: 0 <= i < k - 1 ==> reqs[i].id != Unset
    ensures k < |reqs| ==> k > 0 && reqs[k - 1].id == Unset
  {
    if |reqs| == 0 then 0
    else if reqs[0].id == Unset then 1
    else 1 + HaltIndex(reqs[1..])
  }

  predicate AllAnswerable(pool: Pool, reqs: seq<SeqReq>)
  {
    forall i :: 0 <= i < |reqs| ==> Answerable(pool, reqs[i])
  }

  /** The replies a worker of the pool publishes for the requests it handled, in order. */
  function Published(pool: Pool, reqs: seq<SeqReq>): seq<SeqResp>
    requires AllAnswerable(pool, reqs)
  {
    if |reqs| == 0 then []
    else
      var s := WorkerStepOf(pool, reqs[|reqs| - 1]);
      Published(pool, reqs[..|reqs| - 1]) + (if s.Publish? then [s.resp] else [])
  }

  /** compPQTWorker and combPQTWorker (chudnovsky.seqbak.cpp:217-236, 244-255):
      pull requests until a terminate marker (or the input runs out, where the
      source would block), publishing one reply per other request. */
  method WorkerLoop(pool: Pool, reqs: seq<SeqReq>) returns (out: seq<SeqResp>, consumed: nat)
    requires AllAnswerable(pool, reqs)
    ensures consumed == HaltIndex(reqs)
    ensures out == Published(pool, reqs[..consumed])
    ensures |out| == consumed || |out| == consumed - 1
  {
    out, consumed := [], 0;
    while consumed < |reqs|
      invariant consumed <= |reqs|
      invariant forall i :: 0 <= i < consumed ==> reqs[i].id != Unset
      invariant out == Published(pool, reqs[..consumed]) && |out| == consumed
      invariant HaltIndex(reqs) == consumed + HaltIndex(reqs[consumed..])
    {
      var req := reqs[consumed];
      assert reqs[..consumed + 1][..consumed] == reqs[..consumed];
      assert reqs[consumed..][1..] == reqs[consumed + 1..];
      consumed := consumed + 1;
      var s := WorkerStepOf(pool, req);
      if s.Halt? {
        return;
      }
      out := out + [s.resp];
    }
  }

  /** The destructor (chudnovsky.seqbak.cpp:147-155) pushes one terminate
      request per worker on each of the two request queues. */
  function ShutdownRequests(workers: nat): (s: seq<SeqReq>)
    ensures |s| == workers
    ensures forall i :: 0 <= i < workers ==> s[i].id == Unset
  {
    seq(workers, _ => TerminateReq())
  }

  /** A worker that meets the shutdown requests after its outstanding requests
      handles exactly those and consumes one terminate request. */
  lemma {:induction false} WorkerStopsAtShutdown(pending: seq<SeqReq>, workers: nat, rest: seq<SeqReq>)
    requires workers >= 1
    requires forall i :: 0 <= i < |pending| ==> pending[i].id != Unset
    ensures HaltIndex(pending + ShutdownRequests(workers) + rest) == |pending| + 1
    decreases |pending|
  {
    var all := pending + ShutdownRequests(workers) + rest;
    if |pending| == 0 {
      assert all[0] == TerminateReq();
    } else {
      assert all[1..] == pending[1..] + ShutdownRequests(workers) + rest;
      WorkerStopsAtShutdown(pending[1..], workers, rest);
    }
  }

  // ---- batches (chudnovsky.seqbak.cpp:143-144, 168-173) ----

  /** BATCH_SIZE = N/BATCH_NUM + 1 with C++ division; None where it divides by zero.
      The quotient q = BATCH_SIZE - 1 is the truncated one: for N >= 0 it is the
      unique q with 0 <= N - q * BATCH_NUM < |BATCH_NUM|, whatever the sign of BATCH_NUM. */
  function BatchSizeFor(n: nat, batchNum: int): (bs: Option<int>)
    ensures bs.None? <==> batchNum == 0
    ensures batchNum != 0 ==>
              bs.Some? && 0 <= n - (bs.value - 1) * batchNum < (if batchNum > 0 then batchNum else -batchNum)
    ensures batchNum >= 1 ==> bs.Some? && bs.value == n / batchNum + 1
    ensures batchNum < 0 ==> bs.Some? && bs.value == -(n / -batchNum) + 1
    ensures batchNum >= 1 ==> bs.Some? && bs.value >= 1 && batchNum * bs.value > n
  {
    if batchNum == 0 then None
    else if batchNum < 0 then Some(-(n / -batchNum) + 1)  // C++ division truncates toward zero
    else
      Reduction.BatchesCoverMoreThanN(n, batchNum, n / batchNum + 1);
      Some(n / batchNum + 1)
  }

  /** Request i is a leaf request with id i over a non-empty interval of non-negative indices. */
  predicate IsSeqBatch(batch: seq<SeqReq>)
  {
    forall i :: 0 <= i < |batch| ==> batch[i] == LeafReq(i, batch[i].n1, batch[i].n2) && 0 <= batch[i].n1 < batch[i].n2
  }

  /** The leaf triples the compute workers return for a batch, by id. */
  function SeqValues(batch: seq<SeqReq>): (vals: seq<Triple>)
    requires IsSeqBatch(batch)
    ensures |vals| == |batch|
  {
    seq(|batch|, i requires 0 <= i < |batch| => ComputePQT(batch[i].n1, batch[i].n2))
  }

  /** The leaf requests of compPQTMaster: request i covers [i*batchSize, (i+1)*batchSize). */
  method IssueRequests(batchNum: int, batchSize: int) returns (batch: seq<SeqReq>)
    ensures |batch| == if batchNum > 0 then batchNum else 0
    ensures forall i :: 0 <= i < |batch| ==> batch[i] == LeafReq(i, i * batchSize, (i + 1) * batchSize)
  {
    var begin, end := 0, batchSize;
    batch := [];
    var i := 0;
    while i < batchNum
      invariant 0 <= i && |batch| == i && i <= (if batchNum > 0 then batchNum else 0)
      invariant begin == i * batchSize && end == begin + batchSize
      invariant forall k :: 0 <= k < i ==> batch[k] == LeafReq(k, k * batchSize, (k + 1) * batchSize)
    {
      batch := batch + [LeafReq(i, begin, end)];
      begin := end;
      end := end + batchSize;
      i := i + 1;
    }
  }

  /** The issued requests form a batch: ids in order, every range non-empty. */
  lemma IssuedRequestsAreBatch(batch: seq<SeqReq>, batchSize: int)
    requires batchSize >= 1
    requires forall i :: 0 <= i < |batch| ==> batch[i] == LeafReq(i, i * batchSize, (i + 1) * batchSize)
    ensures IsSeqBatch(batch)
  {
    forall i | 0 <= i < |batch|
      ensures 0 <= batch[i].n1 < batch[i].n2
    {
      Reduction.MulStep(i, batchSize);
    }
  }

  /** The in-order combination of the issued batch is the triple of [0, n*batchSize). */
  lemma {:induction false} IssuedRequestsFold(batch: seq<SeqReq>, batchSize: int)
    requires batchSize >= 1 && |batch| >= 1
    requires forall i :: 0 <= i < |batch| ==> batch[i] == LeafReq(i, i * batchSize, (i + 1) * batchSize)
    ensures IsSeqBatch(batch)
    ensures CombineAll(SeqValues(batch)) == ComputePQT(0, |batch| * batchSize)
    decreases |batch|
  {
    var n := |batch|;
    IssuedRequestsAreBatch(batch, batchSize);
    var vals := SeqValues(batch);
    var front := batch[..n - 1];
    var m := (n - 1) * batchSize;
    Reduction.MulStep(n - 1, batchSize);
    assert batch[n - 1].n1 == m && batch[n - 1].n2 == n * batchSize;
    if n == 1 {
      assert vals[..0] == [];
      UnitIsNeutral(vals[0]);
    } else {
      IssuedRequestsFold(front, batchSize);
      assert vals[..n - 1] == SeqValues(front);
      Reduction.MulGrows(n - 1, batchSize);
      ComputeSplitAnywhere(0, m, n * batchSize);
    }
  }

  // ---- one merge (chudnovsky.seqbak.cpp:263-285) ----

  /** The four operand requests of one merge, with ids 0..3. */
  function OperandRequests(x: Triple, y: Triple): (s: seq<SeqReq>)
    ensures |s| == 4 && forall j :: 0 <= j < 4 ==> s[j].id == j
  {
    [OperandReq(0, x.P, y.P), OperandReq(1, x.Q, y.Q), OperandReq(2, x.T, y.Q), OperandReq(3, x.P, y.T)]
  }

  /** combPQT: the four operand requests go out, the four products come back in
      `order` and are stored by id, and the merge is returned under id rp2.id/2
      over [rp1.n1, rp2.n2). */
  method CombPQT(rp1: SeqResp, rp2: SeqResp, order: seq<nat>) returns (merged: SeqResp, sent: seq<SeqReq>)
    requires IsOrder(order, 4)
    ensures sent == OperandRequests(rp1.result, rp2.result)
    ensures merged == MergedResp(CDiv(rp2.id, 2), rp1.n1, rp2.n2, Combine(rp1.result, rp2.result))
  {
    var x, y := rp1.result, rp2.result;
    sent := OperandRequests(x, y);
    var products := seq(4, _ => EmptyResp());
    var i := 0;
    while i < 4
      invariant 0 <= i <= 4 && |products| == 4
      invariant forall j :: 0 <= j < 4 && j in order[..i] ==> products[j] == WorkerStepOf(CombinePool, sent[j]).resp
    {
      NextIsFresh(order, 4, i);
      var id := order[i];
      products := products[id := WorkerStepOf(CombinePool, sent[id]).resp];
      i := i + 1;
    }
    assert order[..4] == order;
    assert 0 in order && 1 in order && 2 in order && 3 in order;
    var res := Triple(products[0].a, products[1].a, products[2].a + products[3].a);
    merged := MergedResp(CDiv(rp2.id, 2), rp1.n1, rp2.n2, res);
  }

  /** The merged envelope keeps a non-negative id, so its slot stays occupied. */
  lemma MergedIdPresent(id: int)
    requires id >= 0
    ensures CDiv(id, 2) >= 0 && CDiv(id, 2) != Unset
  {
  }

  // ---- the left-fold master (chudnovsky.seqbak.cpp:166-208) ----

  /** Every id below m has arrived among the first t pulls. */
  ghost predicate Covers(order: seq<nat>, t: nat, m: int)
    requires t <= |order|
  {
    forall j :: 0 <= j < m ==> j in order[..t]
  }

  /** More pulls and fewer ids keep a prefix covered. */
  lemma CoversGrows(order: seq<nat>, k: nat, t: nat, m: int, m': int)
    requires k <= t <= |order| && m' <= m && Covers(order, k, m)
    ensures Covers(order, t, m')
  {
    forall j | 0 <= j < m' ensures j in order[..t] {
      assert j in order[..k];
      var i :| 0 <= i < k && order[..k][i] == j;
      assert order[..t][i] == j;
    }
  }

  /** Every id except the last one, n-1, has arrived among the first t pulls. */
  ghost predicate AllButLastIn(order: seq<nat>, t: nat, n: int)
    requires t <= |order|
  {
    Covers(order, t, n - 1)
  }

  /** Slot j outside the folded prefix: leaf reply j once it has arrived, the empty envelope before. */
  ghost predicate LeafSlot(vals: seq<Triple>, order: seq<nat>, t: nat, slots: seq<SeqResp>, j: nat)
    requires t <= |order| && j < |vals| && j < |slots|
  {
    if j in order[..t] then slots[j].id == j && slots[j].result == vals[j]
    else slots[j].id == Unset && slots[j].result == Empty
  }

  /** The slot vector with the window at (e-1, e): slot e-1 holds the in-order
      combination of leaves 0..e-1 (once they have all arrived), and every slot
      from e on holds its own leaf or nothing. */
  ghost predicate FoldInv(vals: seq<Triple>, order: seq<nat>, t: nat, slots: seq<SeqResp>, e: nat)
  {
    && |slots| == |vals| >= 1 && t <= |order| && 1 <= e && (e < |vals| || e == 1)
    && (e >= 2 ==> Covers(order, t, e) && slots[e - 1].id != Unset && slots[e - 1].result == CombineAll(vals[..e]))
    && (e == 1 ==> LeafSlot(vals, order, t, slots, 0))
    && (forall j :: e <= j < |vals| ==> LeafSlot(vals, order, t, slots, j))
  }

  /** Both slots of the window are occupied. */
  predicate WindowReady(slots: seq<SeqResp>, b: nat, e: nat)
  {
    e < |slots| && b < |slots| && slots[b].id != Unset && slots[e].id != Unset
  }

  lemma InitInv(vals: seq<Triple>, order: seq<nat>)
    requires |vals| >= 1
    ensures FoldInv(vals, order, 0, seq(|vals|, _ => EmptyResp()), 1)
  {
  }

  /** A leaf reply lands in its own slot, which is empty and beyond the folded prefix. */
  lemma PullKeepsInv(vals: seq<Triple>, order: seq<nat>, t: nat, slots: seq<SeqResp>, e: nat, r: SeqResp)
    requires FoldInv(vals, order, t, slots, e) && IsOrder(order, |vals|) && t < |vals|
    requires r.id == order[t] && r.result == vals[order[t]]
    ensures FoldInv(vals, order, t + 1, slots[order[t] := r], e)
  {
    NextIsFresh(order, |vals|, t);
    var id := order[t];
    var slots', t' := slots[id := r], t + 1;
    forall j | e <= j < |vals|
      ensures LeafSlot(vals, order, t', slots', j)
    {
      assert LeafSlot(vals, order, t, slots, j);
    }
    if e == 1 {
      assert LeafSlot(vals, order, t, slots, 0);
    } else {
      assert id !in order[..t];
      CoversGrows(order, t, t + 1, e, e);
    }
  }

  /** A ready window has every leaf up to its end in, and its merge is the fold of those leaves. */
  lemma ReadyWindowValue(vals: seq<Triple>, order: seq<nat>, t: nat, slots: seq<SeqResp>, e: nat)
    requires FoldInv(vals, order, t, slots, e) && WindowReady(slots, e - 1, e)
    ensures Covers(order, t, e + 1)
    ensures slots[e].id == e
    ensures Combine(slots[e - 1].result, slots[e].result) == CombineAll(vals[..e + 1])
  {
    assert LeafSlot(vals, order, t, slots, e);
    if e == 1 {
      assert LeafSlot(vals, order, t, slots, 0);
      assert vals[..1] == [vals[0]];
      CombineAllSingle(vals[0]);
    }
    assert vals[..e + 1][..e] == vals[..e];
  }

  /** Merging a ready window short of the last slot moves the window one slot on. */
  lemma MergeKeepsInv(vals: seq<Triple>, order: seq<nat>, t: nat, slots: seq<SeqResp>, e: nat, merged: SeqResp)
    requires FoldInv(vals, order, t, slots, e) && e + 1 < |vals| && Covers(order, t, e + 1)
    requires merged.id != Unset && merged.result == CombineAll(vals[..e + 1])
    ensures FoldInv(vals, order, t, slots[e := merged], e + 1)
  {
    var slots' := slots[e := merged];
    forall j | e + 1 <= j < |vals|
      ensures LeafSlot(vals, order, t, slots', j)
    {
      assert LeafSlot(vals, order, t, slots, j);
      assert slots'[j] == slots[j];
    }
  }

  /** A window that is not ready means some leaf up to its end is still missing. */
  lemma StuckMeansMissing(vals: seq<Triple>, order: seq<nat>, t: nat, slots: seq<SeqResp>, e: nat)
    requires FoldInv(vals, order, t, slots, e) && e < |vals| && !WindowReady(slots, e - 1, e)
    ensures !Covers(order, t, e + 1)
  {
    assert LeafSlot(vals, order, t, slots, e);
    if e == 1 {
      assert LeafSlot(vals, order, t, slots, 0);
    }
  }

  /** The inner loop (chudnovsky.seqbak.cpp:191-199): merge windows while both
      slots are occupied; `done` reports the break after merging into the last slot. */
  method FoldReadyWindows(ghost vals: seq<Triple>, ghost order: seq<nat>, ghost t: nat, slots: seq<SeqResp>,
                          b: nat, e: nat, mergeOrders: seq<seq<nat>>, m: nat)
    returns (slots': seq<SeqResp>, b': nat, e': nat, done: bool, m': nat, sent: seq<SeqReq>)
    requires FoldInv(vals, order, t, slots, e) && b == e - 1 && m == e - 1
    requires |mergeOrders| >= |vals| - 1
    requires forall k :: 0 <= k < |mergeOrders| ==> IsOrder(mergeOrders[k], 4)
    ensures |slots'| == |vals| && e <= e' && b' == e' - 1 && |sent| == 4 * (m' - m)
    ensures done ==> (e' == |vals| - 1 && m' == e' && Covers(order, t, |vals|)
      && slots'[e'].id != Unset && slots'[e'].result == CombineAll(vals))
    ensures !done ==> FoldInv(vals, order, t, slots', e') && m' == e' - 1 && !WindowReady(slots', b', e')
  {
    slots', b', e', done, m', sent := slots, b, e, false, m, [];
    while e' < |slots'| && slots'[b'].id != Unset && slots'[e'].id != Unset
      invariant FoldInv(vals, order, t, slots', e') && b' == e' - 1 && m' == e' - 1 && e <= e'
      invariant |sent| == 4 * (m' - m)
      decreases |vals| - e'
    {
      ReadyWindowValue(vals, order, t, slots', e');
      var merged, more := CombPQT(slots'[b'], slots'[e'], mergeOrders[m']);
      MergedIdPresent(e');
      if e' + 1 < |vals| {
        MergeKeepsInv(vals, order, t, slots', e', merged);
      }
      slots' := slots'[e' := merged];
      sent := sent + more;
      m' := m' + 1;
      if e' == |slots'| - 1 {
        assert vals[..e' + 1] == vals;
        done := true;
        return;
      }
      b', e' := b' + 1, e' + 1;
    }
  }

  /** What the master returns: the last slot's triple after some number of
      pulls, or nothing, when it waits for a reply that never comes. */
  datatype Outcome = Returned(value: Triple, pulls: nat) | Blocked

  /** The last slot after k pulls once the window end has reached it: the whole
      fold if every leaf is in, the bare last leaf if only that one is, or the
      default (all-zero) triple. */
  ghost function ExitValue(vals: seq<Triple>, order: seq<nat>, k: nat): Triple
    requires |vals| >= 1 && k <= |order|
  {
    if Covers(order, k, |vals|) then CombineAll(vals)
    else if |vals| - 1 in order[..k] then vals[|vals| - 1]
    else Empty
  }

  /** The state in which the as-written master leaves: the last slot is ExitValue,
      and with three or more slots leaves 0..n-2 are in, for the first time. */
  lemma AsWrittenExit(vals: seq<Triple>, order: seq<nat>, t: nat, slots: seq<SeqResp>, e: nat, done: bool)
    requires |vals| >= 2 && e == |vals| - 1 && 1 <= t <= |order|
    requires !Covers(order, t - 1, |vals| - 1)
    requires done ==> (Covers(order, t, |vals|) && |slots| == |vals|
      && slots[e].result == CombineAll(vals))
    requires !done ==> FoldInv(vals, order, t, slots, e) && !WindowReady(slots, e - 1, e)
    ensures slots[|vals| - 1].result == ExitValue(vals, order, t)
    ensures |vals| >= 3 ==> Covers(order, t, |vals| - 1)
    ensures forall k :: 1 <= k < t ==> !AllButLastIn(order, k, |vals|)
  {
    var n := |vals|;
    if !done {
      StuckMeansMissing(vals, order, t, slots, e);
      assert LeafSlot(vals, order, t, slots, n - 1);
      if n >= 3 {
        CoversGrows(order, t, t, e, n - 1);
      }
    } else {
      CoversGrows(order, t, t, n, n - 1);
    }
    forall k | 1 <= k < t
      ensures !AllButLastIn(order, k, n)
    {
      if AllButLastIn(order, k, n) {
        CoversGrows(order, k, t - 1, n - 1, n - 1);
      }
    }
  }

  /** Short of the exit, some leaf below n-1 is missing, so another reply is outstanding. */
  lemma AsWrittenContinues(vals: seq<Triple>, order: seq<nat>, t: nat, slots: seq<SeqResp>, e: nat)
    requires IsOrder(order, |vals|) && e < |vals| - 1
    requires FoldInv(vals, order, t, slots, e) && !WindowReady(slots, e - 1, e)
    ensures !Covers(order, t, |vals| - 1) && t < |vals|
  {
    StuckMeansMissing(vals, order, t, slots, e);
    if Covers(order, t, |vals| - 1) {
      CoversGrows(order, t, t, |vals| - 1, e + 1);
    }
    var j :| 0 <= j < e + 1 && j !in order[..t];
    MissingMeansMore(order, |vals|, t, j);
  }

  /** The reduction loop of compPQTMaster as written: after each pull it folds
      the ready windows and leaves as soon as the window end is the last index,
      whether or not the last slot has been merged. With one batch the window
      end never reaches index 0 and the next pull waits forever. With two or
      more the master leaves at the first pull after which leaves 0..BN-2 are
      all in (after the very first pull when BN == 2). */
  method FoldRepliesAsWritten(batch: seq<SeqReq>, order: seq<nat>, mergeOrders: seq<seq<nat>>)
    returns (out: Outcome, sent: seq<SeqReq>)
    requires IsSeqBatch(batch) && |batch| >= 1
    requires IsOrder(order, |batch|)
    requires |mergeOrders| >= |batch| - 1
    requires forall k :: 0 <= k < |mergeOrders| ==> IsOrder(mergeOrders[k], 4)
    ensures |batch| == 1 <==> out.Blocked?
    ensures out.Returned? ==> (1 <= out.pulls <= |batch|
      && out.value == ExitValue(SeqValues(batch), order, out.pulls))
    ensures out.Returned? && |batch| == 2 ==> out.pulls == 1
    ensures out.Returned? && |batch| >= 3 ==> Covers(order, out.pulls, |batch| - 1)
    ensures out.Returned? ==> forall k :: 1 <= k < out.pulls ==> !AllButLastIn(order, k, |batch|)
  {
    var n := |batch|;
    ghost var vals := SeqValues(batch);
    var slots := seq(n, _ => EmptyResp());
    var b: nat, e: nat := 0, 1;
    var t: nat, m: nat := 0, 0;
    sent := [];
    InitInv(vals, order);
    while true
      invariant FoldInv(vals, order, t, slots, e) && b == e - 1 && m == e - 1 && |sent| == 4 * m
      invariant t <= n && (n >= 2 ==> t < n && !Covers(order, t, n - 1))
      invariant n == 2 ==> t == 0
      invariant n >= 3 ==> e < n - 1
      decreases n - t
    {
      if t == n {
        // the pull waits for a reply although none is outstanding
        out := Blocked;
        return;
      }
      NextIsFresh(order, n, t);
      var id := order[t];
      var r := WorkerStepOf(ComputePool, batch[id]).resp;
      PullKeepsInv(vals, order, t, slots, e, r);
      slots := slots[id := r];
      t := t + 1;
      var done, more;
      slots, b, e, done, m, more := FoldReadyWindows(vals, order, t, slots, b, e, mergeOrders, m);
      sent := sent + more;
      if e == n - 1 {
        AsWrittenExit(vals, order, t, slots, e, done);
        out := Returned(slots[n - 1].result, t);
        return;
      }
      if n >= 2 {
        AsWrittenContinues(vals, order, t, slots, e);
      }
    }
  }

  /** The reduction loop as evidently intended: it leaves only once the last
      slot holds the combination of every leaf, so for every arrival order it
      returns the in-order combination of all leaf triples. */
  method FoldReplies(batch: seq<SeqReq>, order: seq<nat>, mergeOrders: seq<seq<nat>>)
    returns (result: Triple, sent: seq<SeqReq>)
    requires IsSeqBatch(batch) && |batch| >= 1
    requires IsOrder(order, |batch|)
    requires |mergeOrders| >= |batch| - 1
    requires forall k :: 0 <= k < |mergeOrders| ==> IsOrder(mergeOrders[k], 4)
    ensures result == CombineAll(SeqValues(batch))
    ensures |sent| == 4 * (|batch| - 1)
  {
    var n := |batch|;
    ghost var vals := SeqValues(batch);
    var slots := seq(n, _ => EmptyResp());
    var b: nat, e: nat := 0, 1;
    var t: nat, m: nat := 0, 0;
    sent := [];
    InitInv(vals, order);
    while true
      invariant FoldInv(vals, order, t, slots, e) && b == e - 1 && m == e - 1 && |sent| == 4 * m
      invariant t < n
      decreases n - t
    {
      NextIsFresh(order, n, t);
      var id := order[t];
      var r := WorkerStepOf(ComputePool, batch[id]).resp;
      PullKeepsInv(vals, order, t, slots, e, r);
      slots := slots[id := r];
      t := t + 1;
      var done, more;
      slots, b, e, done, m, more := FoldReadyWindows(vals, order, t, slots, b, e, mergeOrders, m);
      sent := sent + more;
      if done || n == 1 {
        if !done {
          SingleSlotFilled(vals, order, t, slots, e);
        }
        result := slots[n - 1].result;
        return;
      }
      StuckMeansMissing(vals, order, t, slots, e);
      var j :| 0 <= j < e + 1 && j !in order[..t];
      MissingMeansMore(order, n, t, j);
    }
  }

  /** With one batch, the first reply already is the whole combination. */
  lemma SingleSlotFilled(vals: seq<Triple>, order: seq<nat>, t: nat, slots: seq<SeqResp>, e: nat)
    requires |vals| == 1 && IsOrder(order, 1) && t == 1
    requires FoldInv(vals, order, t, slots, e)
    ensures slots[0].result == CombineAll(vals)
  {
    assert order[..1] == [order[0]] && order[0] == 0;
    assert LeafSlot(vals, order, t, slots, 0);
    assert vals == [vals[0]];
    CombineAllSingle(vals[0]);
  }

  /** compPQTMaster as written: issue the leaf requests, then run the reduction loop. */
  method CompPQTMaster(batchNum: int, batchSize: int, order: seq<nat>, mergeOrders: seq<seq<nat>>)
    returns (out: Outcome, issued: seq<SeqReq>, sent: seq<SeqReq>)
    requires batchNum >= 1 && batchSize >= 1
    requires IsOrder(order, batchNum)
    requires |mergeOrders| >= batchNum - 1
    requires forall k :: 0 <= k < |mergeOrders| ==> IsOrder(mergeOrders[k], 4)
    ensures |issued| == batchNum && IsSeqBatch(issued)
    ensures forall i :: 0 <= i < batchNum ==> issued[i] == LeafReq(i, i * batchSize, (i + 1) * batchSize)
    ensures CombineAll(SeqValues(issued)) == ComputePQT(0, batchNum * batchSize)
    ensures batchNum == 1 <==> out.Blocked?
    ensures out.Returned? ==> (1 <= out.pulls <= batchNum
      && out.value == ExitValue(SeqValues(issued), order, out.pulls))
    ensures out.Returned? && batchNum == 2 ==> out.pulls == 1
    ensures out.Returned? && batchNum >= 3 ==> Covers(order, out.pulls, batchNum - 1)
    ensures out.Returned? ==> forall k :: 1 <= k < out.pulls ==> !AllButLastIn(order, k, batchNum)
  {
    issued := IssueRequests(batchNum, batchSize);
    IssuedRequestsFold(issued, batchSize);
    out, sent := FoldRepliesAsWritten(issued, order, mergeOrders);
  }

  /** compPQTMaster with the exit moved after the last merge: the triple of the
      whole interval [0, batchNum*batchSize). */
  method CompPQTMasterFixed(batchNum: int, batchSize: int, order: seq<nat>, mergeOrders: seq<seq<nat>>)
    returns (result: Triple, issued: seq<SeqReq>, sent: seq<SeqReq>)
    requires batchNum >= 1 && batchSize >= 1
    requires IsOrder(order, batchNum)
    requires |mergeOrders| >= batchNum - 1
    requires forall k :: 0 <= k < |mergeOrders| ==> IsOrder(mergeOrders[k], 4)
    ensures |issued| == batchNum && IsSeqBatch(issued)
    ensures result == ComputePQT(0, batchNum * batchSize)
    ensures |sent| == 4 * (batchNum - 1)
  {
    issued := IssueRequests(batchNum, batchSize);
    IssuedRequestsFold(issued, batchSize);
    result, sent := FoldReplies(issued, order, mergeOrders);
  }

  // ---- the premature exit, exhibited ----

  /** With in-order arrivals the first pull after which leaves 0..n-2 are all in
      is pull n-1, and leaf n-1 is not among them. */
  lemma InOrderExitPoint(vals: seq<Triple>, k: nat)
    requires |vals| >= 3 && 1 <= k <= |vals|
    requires Covers(Iota(|vals|), k, |vals| - 1)
    requires forall k' :: 1 <= k' < k ==> !AllButLastIn(Iota(|vals|), k', |vals|)
    ensures k == |vals| - 1
    ensures ExitValue(vals, Iota(|vals|), k) == Empty
  {
    var n := |vals|;
    IotaPrefix(n, k);
    IotaPrefix(n, n - 1);
    // an earlier exit would need id k among the ids below k
    var kIn := k in Iota(n)[..k];
    // a later one would skip pull n-1, after which ids 0..n-2 are in
    assert AllButLastIn(Iota(n), n - 1, n);
  }

  /** The first k in-order arrivals are exactly the ids below k. */
  lemma IotaPrefix(n: nat, k: nat)
    requires k <= n
    ensures forall j: nat :: j in Iota(n)[..k] <==> j < k
  {
    forall j: nat | j < k ensures j in Iota(n)[..k] {
      assert Iota(n)[..k][j] == j;
    }
  }

  /** With in-order arrivals and three or more batches the as-written master
      leaves after BN-1 pulls and returns the default all-zero triple, which is
      not the triple of the interval. */
  method InOrderArrivalsReturnEmpty(batchNum: nat, batchSize: int, mergeOrders: seq<seq<nat>>)
    returns (out: Outcome)
    requires batchNum >= 3 && batchSize >= 1
    requires |mergeOrders| >= batchNum - 1
    requires forall k :: 0 <= k < |mergeOrders| ==> IsOrder(mergeOrders[k], 4)
    ensures out == Returned(Empty, batchNum - 1)
    ensures out.value != ComputePQT(0, batchNum * batchSize)
  {
    var order := Iota(batchNum);
    IotaIsOrder(batchNum);
    var issued, sent;
    out, issued, sent := CompPQTMaster(batchNum, batchSize, order, mergeOrders);
    InOrderExitPoint(SeqValues(issued), out.pulls);
    MulPositive(batchNum, batchSize);
    ComputePositive(0, batchNum * batchSize);
  }

  /** With two batches the value left after the first reply, either leaf 1
      alone or the all-zero triple, is not the triple of the whole interval. */
  lemma TwoBatchExitIsWrong(issued: seq<SeqReq>, order: seq<nat>, batchSize: int)
    requires batchSize >= 1 && IsOrder(order, 2) && IsSeqBatch(issued) && |issued| == 2
    requires issued[1] == LeafReq(1, batchSize, 2 * batchSize)
    requires CombineAll(SeqValues(issued)) == ComputePQT(0, 2 * batchSize)
    ensures ExitValue(SeqValues(issued), order, 1) != ComputePQT(0, 2 * batchSize)
  {
    var vals := SeqValues(issued);
    assert order[..1] == [order[0]];
    if order[0] == 0 {
      assert 1 !in order[..1];
    } else {
      assert 0 !in order[..1];
    }
    ComputeSplitAnywhere(0, batchSize, 2 * batchSize);
    ComputePositive(0, batchSize);
    ComputePositive(batchSize, 2 * batchSize);
    ComputePositive(0, 2 * batchSize);
    var left, right := ComputePQT(0, batchSize), ComputePQT(batchSize, 2 * batchSize);
    MulMore(left.Q, right.Q);
  }

  /** With two batches the as-written master leaves after the first reply and
      returns either that lone second leaf or the all-zero triple; neither is
      the triple of the interval. */
  method TwoBatchesExitAfterFirstPull(batchSize: int, order: seq<nat>, mergeOrders: seq<seq<nat>>)
    returns (out: Outcome)
    requires batchSize >= 1 && IsOrder(order, 2)
    requires |mergeOrders| >= 1
    requires forall k :: 0 <= k < |mergeOrders| ==> IsOrder(mergeOrders[k], 4)
    ensures out.Returned? && out.pulls == 1
    ensures out.value != ComputePQT(0, 2 * batchSize)
  {
    var issued, sent;
    out, issued, sent := CompPQTMaster(2, batchSize, order, mergeOrders);
    TwoBatchExitIsWrong(issued, order, batchSize);
  }

  lemma MulMore(a: int, b: int)
    requires a >= 2 && b >= 1
    ensures a * b > b
  {
  }
}
