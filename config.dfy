/** The set-up of a concurrent run (chudnovsky.cpp:21, 494-517): the batch
    count from the worker count, the batch width from the number of terms, and
    the choice of orchestrator by version. */
module Config {
  import opened Pqt
  import opened Levels
  import opened Envelopes
  import opened BatchNum
  import opened Reduction
  import MasterV1
  import MasterV2
  import MasterV3

  /** NUM_OF_CORES_ (chudnovsky.cpp:21): the requested worker count, or the
      count the hardware reports when none is requested. It is never negative,
      and zero only when no worker is requested and none is reported. */
  function NumOfCores(workerNum: int, hardwareConcurrency: nat): (cores: int)
    ensures cores >= 0
    ensures cores == 0 <==> workerNum <= 0 && hardwareConcurrency == 0
    ensures workerNum > 0 ==> cores == workerNum
    ensures workerNum <= 0 ==> cores == hardwareConcurrency
  {
    if workerNum <= 0 then hardwareConcurrency else workerNum
  }

  /** Only the zero worker count converts to the zero uint32. */
  lemma ZeroConv(n: int)
    requires 0 <= n < 0x1000_0000
    ensures ToUint32(n) == 0 <==> n == 0
  {
  }

  lemma DoubleIsPow2(x: int)
    requires IsPow2(x)
    ensures IsPow2(2 * x)
  {
  }

  /** Eight times a single-bit uint32 is a power of two of at least 8. */
  lemma EightTimesPow2(p: bv32)
    requires IsPow2Bv(p)
    ensures p as int >= 1 && IsPow2(8 * (p as int))
  {
    Pow2BvIsPow2(p);
    var q := p as int;
    DoubleIsPow2(q);
    DoubleIsPow2(2 * q);
    DoubleIsPow2(4 * q);
  }

  /** BATCH_NUM_ and BATCH_SIZE_ (chudnovsky.cpp:461-462, 496-497): eight times
      the largest power of two not above the worker count, and one more than
      the terms per batch. With no workers requested and none reported the
      batch count is 0 and the division by it is undefined: None. */
  method ConfigureBatches(workerNum: int, hardwareConcurrency: nat, n: nat) returns (cfg: Option<(nat, nat)>)
    requires NumOfCores(workerNum, hardwareConcurrency) < 0x1000_0000
    ensures cfg.None? <==> workerNum <= 0 && hardwareConcurrency == 0
    ensures cfg.Some? ==> IsPow2(cfg.value.0) && cfg.value.0 >= 8
    ensures cfg.Some? ==> cfg.value.1 == n / cfg.value.0 + 1 && cfg.value.0 * cfg.value.1 > n
  {
    var numOfCores := NumOfCores(workerNum, hardwareConcurrency);
    var p := GetBatchNum(numOfCores);
    ZeroConv(numOfCores);
    if p == 0 {
      // BATCH_SIZE_ = N_ / 0
      return None;
    }
    EightTimesPow2(p);
    var batchNum: nat := 8 * (p as int);
    var batchSize := n / batchNum + 1;
    BatchesCoverMoreThanN(n, batchNum, batchSize);
    cfg := Some((batchNum, batchSize));
  }

  /** The concurrent run covers [0, total) with total = BN*BS, which extends
      the [0, N) of the single-threaded run (chudnovsky.cpp:470): its triple is
      that of [0, N) combined with the triple of the surplus terms. */
  lemma ConcurrentExtendsSequential(n: nat, batchNum: nat, batchSize: int, total: int)
    requires n >= 1 && batchNum >= 1 && batchSize == n / batchNum + 1
    requires total == batchNum * batchSize
    ensures total > n
    ensures ComputePQT(0, total) == Combine(ComputePQT(0, n), ComputePQT(n, total))
  {
    BatchesCoverMoreThanN(n, batchNum, batchSize);
    ComputeSplitAnywhere(0, n, total);
  }

  /** The choice of orchestrator (chudnovsky.cpp:508-517). Versions 1, 2 and 3
      all yield the triple of [0, batchNum*batchSize), whatever the order in
      which replies arrive; any other version computes nothing. */
  method PQTByVersion(version: int, batchNum: nat, batchSize: int, leafOrder: seq<nat>,
                      mergeOrders: seq<seq<nat>>, compOrders: seq<seq<nat>>, productOrders: seq<seq<nat>>)
    returns (r: Option<Triple>)
    requires IsPow2(batchNum) && batchSize >= 1
    requires IsOrder(leafOrder, batchNum)
    requires |mergeOrders| >= batchNum - 1
    requires forall k :: 0 <= k < |mergeOrders| ==> IsOrder(mergeOrders[k], 4)
    requires ArrivalSchedule(compOrders, batchNum)
    requires ProductSchedule(productOrders, batchNum)
    ensures r.Some? <==> 1 <= version <= 3
    ensures r.Some? ==> r.value == ComputePQT(0, batchNum * batchSize)
  {
    if version == 1 {
      var result, issued, sent := MasterV1.PQTMasterV1(batchNum, batchSize, leafOrder, mergeOrders);
      r := Some(result);
    } else if version == 2 {
      var result, issued, sent := MasterV2.PQTMasterV2(batchNum, batchSize, leafOrder, productOrders);
      r := Some(result);
    } else if version == 3 {
      var result, issued, sent := MasterV3.PQTMasterV3(batchNum, batchSize, compOrders, productOrders);
      r := Some(result);
    } else {
      r := None;
    }
  }
}
