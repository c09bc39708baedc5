/** The per-request body of a pool worker (chudnovsky.cpp:165-217) as a pure
    dispatch on the request tag, and the worker loop over the requests it pulls. */
module Worker {
  import opened Pqt
  import opened Envelopes

  /** The two response queues a worker publishes on. */
  datatype Queue = ComputeQueue | CombineQueue

  /** What a worker does with one request. */
  datatype Action = Stop | Reply(queue: Queue, resp: RespPack) | Skip

  /** The payload the tag promises is present; a compute interval is non-empty
      (otherwise ComputePQT does not terminate and a null operand is dereferenced). */
  predicate WellFormed(req: ReqPack)
  {
    && (req.kind == TypeCompute ==> req.n1 < req.n2)
    && (req.kind == TypeCombine ==> req.a.Some? && req.b.Some?)
    && (req.kind == TypeCombine2 ==> req.a.Some? && req.b.Some? && req.c.Some? && req.d.Some?)
  }

  function Dispatch(req: ReqPack): (act: Action)
    requires req.IsValid() ==> WellFormed(req)
    ensures act.Stop? <==> !req.IsValid()
    ensures act.Skip? <==> req.IsValid() && (req.kind == TypeUnknown || req.kind == TypeMinimal)
    ensures act.Reply? ==> act.resp.id == req.id && act.resp.kind == req.kind && act.resp.IsValid()
    ensures act.Reply? ==> (act.queue == CombineQueue <==> req.kind == TypeCombine)
    ensures act.Reply? && act.queue == ComputeQueue ==> act.resp.result.Some?
    ensures act.Reply? && act.queue == CombineQueue ==> act.resp.a.Some?
    ensures act.Reply? && req.kind == TypeCompute ==>
      act.resp.result == Some(ComputePQT(req.n1, req.n2)) && act.resp.n1 == req.n1 && act.resp.n2 == req.n2
    ensures act.Reply? && req.kind == TypeCombine ==> act.resp.a == Some(req.a.value * req.b.value)
    ensures act.Reply? && req.kind == TypeCombine2 ==>
      act.resp.result == Some(Triple(req.a.value, req.b.value, req.c.value + req.d.value))
  {
    if !req.IsValid() then Stop
    else match req.kind
      case TypeCompute =>
        Reply(ComputeQueue, ReplyTriple(req, ComputePQT(req.n1, req.n2)))
      case TypeCombine =>
        Reply(CombineQueue, ReplyProduct(req, req.a.value * req.b.value))
      case TypeCombine2 =>
        Reply(ComputeQueue, ReplyTriple(req, Triple(req.a.value, req.b.value, req.c.value + req.d.value)))
      case _ => Skip
  }

  /** A request that a worker answers. */
  predicate Servable(req: ReqPack)
  {
    req.IsValid() && WellFormed(req) && (req.kind == TypeCompute || req.kind == TypeCombine || req.kind == TypeCombine2)
  }

  /** The response a worker publishes for a servable request. */
  function Serve(req: ReqPack): (r: RespPack)
    requires Servable(req)
    ensures r.id == req.id && r.kind == req.kind && r.IsValid()
  {
    Dispatch(req).resp
  }

  /** What the published response holds, by tag: the triple of the interval,
      the product of the two operands, or the triple assembled from four
      operands. Kept apart from Serve's contract so that the proofs about the
      masters, which only route responses, do not carry it. */
  lemma ServeAnswers(req: ReqPack)
    requires Servable(req)
    ensures req.kind == TypeCompute ==>
      Serve(req).result == Some(ComputePQT(req.n1, req.n2)) && Serve(req).n1 == req.n1 && Serve(req).n2 == req.n2
    ensures req.kind == TypeCombine ==> Serve(req).a == Some(req.a.value * req.b.value)
    ensures req.kind == TypeCombine2 ==>
      Serve(req).result == Some(Triple(req.a.value, req.b.value, req.c.value + req.d.value))
  {
  }

  /** A compute reply carries the in-order combination of the unit leaves of its interval. */
  lemma ComputeReplyIsFold(req: ReqPack)
    requires Servable(req) && req.kind == TypeCompute
    ensures Serve(req).result == Some(CombineAll(Leaves(req.n1, req.n2)))
    ensures Serve(req).n1 == req.n1 && Serve(req).n2 == req.n2
  {
    ComputeIsFold(req.n1, req.n2);
  }

  /** Index just past the first terminate request, or the whole input when there is none. */
  function StopIndex(reqs: seq<ReqPack>): (k: nat)
    ensures k <= |reqs|
    ensures forall i :: 0 <= i < k - 1 ==> reqs[i].IsValid()
    ensures k < |reqs| ==> k > 0 && !reqs[k - 1].IsValid()
  {
    if |reqs| == 0 then 0
    else if !reqs[0].IsValid() then 1
    else 1 + StopIndex(reqs[1..])
  }

  predicate AllWellFormed(reqs: seq<ReqPack>)
  {
    forall i :: 0 <= i < |reqs| ==> reqs[i].IsValid() ==> WellFormed(reqs[i])
  }

  /** The responses published on queue q for the requests handled, in order. */
  function Replies(reqs: seq<ReqPack>, q: Queue): seq<RespPack>
    requires AllWellFormed(reqs)
  {
    if |reqs| == 0 then []
    else
      var act := Dispatch(reqs[|reqs| - 1]);
      Replies(reqs[..|reqs| - 1], q) + (if act.Reply? && act.queue == q then [act.resp] else [])
  }

  /** The worker loop: pull requests until one is invalid (or the input runs out,
      where the source would block), publishing one reply per answered request. */
  method PQTWorkerV1(reqs: seq<ReqPack>) returns (computeOut: seq<RespPack>, combineOut: seq<RespPack>, consumed: nat)
    requires AllWellFormed(reqs)
    ensures consumed == StopIndex(reqs)
    ensures computeOut == Replies(reqs[..consumed], ComputeQueue)
    ensures combineOut == Replies(reqs[..consumed], CombineQueue)
  {
    computeOut, combineOut, consumed := [], [], 0;
    while consumed < |reqs|
      invariant consumed <= |reqs|
      invariant forall i :: 0 <= i < consumed ==> reqs[i].IsValid()
      invariant computeOut == Replies(reqs[..consumed], ComputeQueue)
      invariant combineOut == Replies(reqs[..consumed], CombineQueue)
      invariant StopIndex(reqs) == consumed + StopIndex(reqs[consumed..])
    {
      var req := reqs[consumed];
      assert reqs[..consumed + 1][..consumed] == reqs[..consumed];
      assert reqs[consumed..][1..] == reqs[consumed + 1..];
      consumed := consumed + 1;
      var act := Dispatch(req);
      if act.Stop? {
        return;
      }
      if act.Reply? {
        if act.queue == ComputeQueue {
          computeOut := computeOut + [act.resp];
        } else {
          combineOut := combineOut + [act.resp];
        }
      }
    }
  }

  /** The shutdown envelopes: one terminate request per worker (chudnovsky.cpp:42-44). */
  function TerminateRequests(workers: nat): (s: seq<ReqPack>)
    ensures |s| == workers
  {
    seq(workers, _ => NewReq())
  }

  /** A worker that meets the shutdown envelopes after its outstanding valid
      requests consumes exactly those requests and one terminate envelope. */
  lemma {:induction false} WorkerStopsAtShutdown(pending: seq<ReqPack>, workers: nat, rest: seq<ReqPack>)
    requires workers >= 1
    requires forall i :: 0 <= i < |pending| ==> pending[i].IsValid()
    ensures StopIndex(pending + TerminateRequests(workers) + rest) == |pending| + 1
    ensures forall i :: 0 <= i < workers ==> !TerminateRequests(workers)[i].IsValid()
    decreases |pending|
  {
    var all := pending + TerminateRequests(workers) + rest;
    if |pending| == 0 {
      assert all[0] == NewReq();
    } else {
      assert all[1..] == pending[1..] + TerminateRequests(workers) + rest;
      WorkerStopsAtShutdown(pending[1..], workers, rest);
    }
  }
}
