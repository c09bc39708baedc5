/** Request and response envelopes (utils.cpp:11-50). An envelope is valid
    exactly when its id is not -1; invalidating it clears only the id.
    Shared pointers to big integers become Option values (None for a null
    pointer); int fields that a constructor leaves unset hold -1 here. */
module Envelopes {
  import opened Pqt

  datatype Option<T> = None | Some(value: T)

  /** The tag of an envelope (utils.hpp:3 plus TYPE_MINIMAL of utils.cpp:12). */
  datatype PackType = TypeUnknown | TypeCompute | TypeCombine | TypeCombine2 | TypeMinimal

  /** Sentinel id of an invalid (empty, consumed or terminating) envelope. */
  const NoId: int := -1

  datatype ReqPack = ReqPack(id: int, n1: int, n2: int, kind: PackType,
                             a: Option<int>, b: Option<int>, c: Option<int>, d: Option<int>)
  {
    predicate IsValid()
    {
      id != NoId
    }

    function Invalidate(): (r: ReqPack)
      ensures !r.IsValid()
      ensures r.(id := id) == this
    {
      this.(id := NoId)
    }
  }

  datatype RespPack = RespPack(id: int, n1: int, n2: int, result: Option<Triple>,
                               kind: PackType, a: Option<int>)
  {
    predicate IsValid()
    {
      id != NoId
    }

    function Invalidate(): (r: RespPack)
      ensures !r.IsValid()
      ensures r.(id := id) == this
    {
      this.(id := NoId)
    }
  }

  // ---- ReqPack constructors (utils.cpp:11-17) ----

  /** The default request: the terminate marker. */
  function NewReq(): (r: ReqPack)
    ensures !r.IsValid() && r.kind == TypeUnknown && r.n1 == -1 && r.n2 == -1
    ensures r.a.None? && r.b.None? && r.c.None? && r.d.None?
  {
    ReqPack(NoId, -1, -1, TypeUnknown, None, None, None, None)
  }

  /** A request that carries only an id; workers skip it. */
  function MinimalReq(id: int): (r: ReqPack)
    ensures r.id == id && r.kind == TypeMinimal && (r.IsValid() <==> id != -1)
    ensures r.a.None? && r.b.None? && r.c.None? && r.d.None?
  {
    ReqPack(id, -1, -1, TypeMinimal, None, None, None, None)
  }

  /** A request for the triple of the interval [n1, n2). */
  function ComputeReq(id: int, n1: int, n2: int): (r: ReqPack)
    ensures r.id == id && r.kind == TypeCompute && (r.IsValid() <==> id != -1)
    ensures r.n1 == n1 && r.n2 == n2
    ensures r.a.None? && r.b.None? && r.c.None? && r.d.None?
  {
    ReqPack(id, n1, n2, TypeCompute, None, None, None, None)
  }

  /** A request for the product a * b. */
  function CombineReq(id: int, a: int, b: int): (r: ReqPack)
    ensures r.id == id && r.kind == TypeCombine && (r.IsValid() <==> id != -1)
    ensures r.a == Some(a) && r.b == Some(b) && r.c.None? && r.d.None?
  {
    ReqPack(id, -1, -1, TypeCombine, Some(a), Some(b), None, None)
  }

  /** A request to assemble the triple (a, b, c + d). */
  function Combine2Req(id: int, a: int, b: int, c: int, d: int): (r: ReqPack)
    ensures r.id == id && r.kind == TypeCombine2 && (r.IsValid() <==> id != -1)
    ensures r.a == Some(a) && r.b == Some(b) && r.c == Some(c) && r.d == Some(d)
  {
    ReqPack(id, -1, -1, TypeCombine2, Some(a), Some(b), Some(c), Some(d))
  }

  // ---- RespPack constructors (utils.cpp:33-38) ----

  /** The default response: an empty slot. */
  function NewResp(): (r: RespPack)
    ensures !r.IsValid() && r.kind == TypeUnknown && r.n1 == -1 && r.n2 == -1
    ensures r.result.None? && r.a.None?
  {
    RespPack(NoId, -1, -1, None, TypeUnknown, None)
  }

  /** The triple of the interval [n1, n2) under the given id. */
  function TripleResp(id: int, n1: int, n2: int, result: Triple): (r: RespPack)
    ensures r.id == id && r.kind == TypeCompute && (r.IsValid() <==> id != -1)
    ensures r.n1 == n1 && r.n2 == n2 && r.result == Some(result) && r.a.None?
  {
    RespPack(id, n1, n2, Some(result), TypeCompute, None)
  }

  /** A triple under an id alone; the interval is forgotten. */
  function IdResp(id: int, result: Triple): (r: RespPack)
    ensures r.id == id && r.kind == TypeCompute && (r.IsValid() <==> id != -1)
    ensures r.n1 == -1 && r.n2 == -1 && r.result == Some(result) && r.a.None?
  {
    RespPack(id, -1, -1, Some(result), TypeCompute, None)
  }

  /** The answer to a request with a triple: copies the id, tag and interval. */
  function ReplyTriple(req: ReqPack, result: Triple): (r: RespPack)
    ensures r.id == req.id && r.kind == req.kind && (r.IsValid() <==> req.IsValid())
    ensures r.n1 == req.n1 && r.n2 == req.n2 && r.result == Some(result) && r.a.None?
  {
    RespPack(req.id, req.n1, req.n2, Some(result), req.kind, None)
  }

  /** A product under the given id. */
  function ProductResp(id: int, a: int): (r: RespPack)
    ensures r.id == id && r.kind == TypeCombine && (r.IsValid() <==> id != -1)
    ensures r.a == Some(a) && r.result.None?
  {
    RespPack(id, -1, -1, None, TypeCombine, Some(a))
  }

  /** The answer to a request with a product: copies the id and tag. */
  function ReplyProduct(req: ReqPack, a: int): (r: RespPack)
    ensures r.id == req.id && r.kind == req.kind && (r.IsValid() <==> req.IsValid())
    ensures r.a == Some(a) && r.result.None?
  {
    RespPack(req.id, -1, -1, None, req.kind, Some(a))
  }

  /** Invalidating twice is invalidating once, and a valid envelope becomes invalid. */
  lemma InvalidateIdempotent(r: RespPack)
    ensures r.Invalidate().Invalidate() == r.Invalidate()
    ensures r.IsValid() ==> r.Invalidate() != r
  {
  }
}
