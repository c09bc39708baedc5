# PIAlgoChud in Dafny

PIAlgoChud computes π with the Chudnovsky series. The series' partial
sums are carried as triples (P, Q, T) of big integers. `ComputePQT(n1, n2)`
computes the triple of the terms in [n1, n2) by binary splitting: a single
term is a closed-form leaf, and two adjacent ranges are merged by
`(P1·P2, Q1·Q2, T1·Q2 + P1·T2)`.

The concurrent versions split the range into `BATCH_NUM_` batches of
`BATCH_SIZE_` terms. A pool of worker threads takes request envelopes
(`ReqPack`) from a queue and answers with response envelopes (`RespPack`).
A master thread reduces the batch triples:

- Version 1 merges a pair of neighbours level by level. It sends the four
  big-integer products of every merge to the workers and waits for them.
- Version 2 sends every level's products as soon as a window is ready.
  A collector assembles the next level.
- Version 3 also asks the workers to assemble each merged triple
  (a `Combine2` request).

The older single-file implementation (`chudnovsky.seqbak.cpp`) folds the
batch triples left to right instead.

The model keeps every integer exact. Queues become arrival orders: a pull
takes the next id of an order that is a permutation of the ids still
outstanding. A worker's answer is a function of the request it serves. The
masters are methods whose slot vectors are local sequences and whose pushes
are returned as sequences. Masters V1, V2 and V3, and the corrected older
master `SeqBak.CompPQTMasterFixed`, are each proved to return the triple of the
whole range, whatever the arrival orders, and to send exactly the expected
number of requests to the workers. The older master as written
(`SeqBak.CompPQTMaster`) does not: it can stop early or never stop, and
the Findings section below gives the inputs that show it.

Modules:

- `Pqt`: triples, the series leaf and `ComputePQT`, and the fold laws.
- `Levels`: powers of two, pairwise reduction, arrival orders.
- `BatchNum`: `GetBatchNum` on 32-bit words.
- `Envelopes`: `ReqPack` and `RespPack`.
- `Worker`: the pool worker and shutdown.
- `Reduction`: issuing batches, product requests, and the slot invariants
  shared by the masters.
- `MasterV1`, `MasterV2`, `MasterV3`: the three orchestrators.
- `SeqBak`: the older implementation.
- `Config`: batch configuration and the version dispatch.

## Model

| member | source | states |
|---|---|---|
| Pqt.CDiv | chudnovsky.cpp:71 | C++ `int` division truncates toward zero: equals Euclidean division for non-negative dividends, is its negation mirrored for negative ones, and leaves a remainder strictly between -d and d |
| Pqt.Mid | chudnovsky.cpp:71 | the split point `(n1+n2)/2` of a range of at least two terms lies strictly inside it and differs from the exact half by at most one half |
| Pqt.Leaves | chudnovsky.cpp:63-69 | the leaf sequence of [n1, n2) has n2-n1 entries, the i-th being the leaf of term n1+i+1 |
| Pqt.C3_24IsExact | chudnovsky.cpp:14 | the constant `C*C*C/24` is 10939058860032000, and the division is exact: 24·C3_24 == C^3 |
| Pqt.CombineAssociative | chudnovsky.cpp:74-76 | the merge of adjacent triples is associative, so any bracketing of the same ranges gives the same triple |
| Pqt.UnitIsNeutral | chudnovsky.cpp:74-76 | (1, 1, 0) is a two-sided identity of the merge |
| Pqt.CombineNotCommutative | chudnovsky.cpp:74-76 | the merge is not commutative, so the masters must keep the left operand on the left |
| Pqt.CombineAllSingle | chudnovsky.cpp:63-69 | folding one triple gives that triple |
| Pqt.CombineAllAppend | chudnovsky.cpp:74-76 | folding a concatenation is merging the folds of its parts |
| Pqt.LeavesSplit | chudnovsky.cpp:70-73 | the leaves of [n1, n2) are those of [n1, m) followed by those of [m, n2) |
| Pqt.ComputeIsFold | chudnovsky.cpp:59-80 | binary splitting of [n1, n2) equals the left-to-right merge of its leaves |
| Pqt.ComputeSplitAnywhere | chudnovsky.cpp:59-80 | the triple of [n1, n2) is the merge of [n1, m) and [m, n2) for any split point, not only the midpoint |
| Pqt.LeafSigns | chudnovsky.cpp:63-69 | for every term n2 ≥ 1 the closed-form leaf `Pqt.Leaf` has P > 0, Q ≥ C3_24, and T nonzero and negative exactly for odd terms |
| Pqt.ComputePositive | chudnovsky.cpp:59-80 | `Pqt.ComputePQT`, the binary splitting of any non-empty range of non-negative terms, has P > 0 and Q ≥ C3_24, so Q never vanishes in the final division (its value is the fold of the leaves: Pqt.ComputeIsFold) |
| Levels.Pairwise | chudnovsky.cpp:116-127 | one level of the reduction halves the number of nodes |
| Levels.PairwisePreservesFold | chudnovsky.cpp:116-127 | merging neighbours pairwise leaves the fold of the level unchanged |
| Levels.NextIsFresh | chudnovsky.cpp:112-113 | the next pulled id is in range and not pulled before; the pulled set grows by exactly that id |
| Levels.MissingMeansMore | chudnovsky.cpp:110-113 | while some id has not arrived, more pulls remain |
| BatchNum.GetBatchNum | utils.cpp:84-94 | for the 32-bit image x of the core count: 0 gives 0; otherwise the result is the power of two with r ≤ x < 2r; a power of two maps to itself |
| BatchNum.Pow2BvIsPow2 | utils.cpp:93 | a single-bit word is a power of two as an integer |
| Envelopes.ReqPack.Invalidate | utils.cpp:28-31 | an invalidated request is invalid and differs from the original only in its id |
| Envelopes.RespPack.Invalidate | utils.cpp:47-50 | an invalidated response is invalid and differs from the original only in its id |
| Envelopes.NewReq | utils.cpp:11 | the default request is invalid (id -1), of unknown type, with interval (-1, -1) and no operands |
| Envelopes.MinimalReq | utils.cpp:12 | a minimal request carries its id and the minimal tag, no operands, and is valid exactly when the id is not -1 |
| Envelopes.ComputeReq | utils.cpp:13 | a compute request carries its id, the compute tag and its interval, no operands, and is valid exactly when the id is not -1 |
| Envelopes.CombineReq | utils.cpp:14 | a product request carries its id, the combine tag and operands a and b only, and is valid exactly when the id is not -1 |
| Envelopes.Combine2Req | utils.cpp:17 | an assembly request carries its id, the Combine2 tag and all four operands, and is valid exactly when the id is not -1 |
| Envelopes.NewResp | utils.cpp:33 | the default response is invalid, of unknown type, with interval (-1, -1) and neither a triple nor a product |
| Envelopes.TripleResp | utils.cpp:34 | a triple response carries its id, interval and triple under the compute tag, no product, and is valid exactly when the id is not -1 |
| Envelopes.IdResp | utils.cpp:35 | an id-only triple response has interval (-1, -1), the compute tag and its triple |
| Envelopes.ReplyTriple | utils.cpp:36 | the triple answer to a request copies its id, tag and interval, holds the triple and no product, and is valid exactly when the request is |
| Envelopes.ProductResp | utils.cpp:37 | a product response carries its id and the product under the combine tag, no triple, and is valid exactly when the id is not -1 |
| Envelopes.ReplyProduct | utils.cpp:38 | the product answer to a request copies its id and tag, holds the product and no triple, and is valid exactly when the request is |
| Envelopes.InvalidateIdempotent | utils.cpp:47-50 | invalidating twice equals invalidating once, and invalidating changes a valid envelope |
| Worker.Dispatch | chudnovsky.cpp:172-215 | an invalid request stops the worker; unknown and minimal requests are skipped; the others are answered with the request's id and tag, on the combine queue exactly for products; a compute answer holds ComputePQT of the request's interval and keeps the interval, a product answer holds a·b, a Combine2 answer holds the triple (a, b, c+d) |
| Worker.Serve | chudnovsky.cpp:174-215 | an answer keeps the request's id and tag and is valid |
| Worker.ServeAnswers | chudnovsky.cpp:174-215 | the published answer holds ComputePQT of the interval and keeps the interval (compute), holds a·b (product), or holds (a, b, c+d) (Combine2) |
| Worker.ComputeReplyIsFold | chudnovsky.cpp:174-187 | a compute answer holds the fold of the leaves of its interval and keeps the interval |
| Worker.StopIndex | chudnovsky.cpp:167-172 | the worker consumes requests up to and including the first invalid one; all earlier ones are valid |
| Worker.PQTWorkerV1 | chudnovsky.cpp:165-217 | the loop consumes exactly up to the first terminate request and pushes exactly the answers of the consumed requests, split between the compute and combine queues |
| Worker.TerminateRequests | chudnovsky.cpp:42-44 | shutdown pushes one request per worker, each invalid |
| Worker.WorkerStopsAtShutdown | chudnovsky.cpp:37-48 | a worker that has drained its pending requests stops at the first shutdown request, whatever follows it |
| Reduction.BatchValues | chudnovsky.cpp:92-97 | one value per issued batch |
| Reduction.LeafReply | chudnovsky.cpp:174-187 | the worker's answer to batch i sits at slot i and holds batch i's triple |
| Reduction.IssueBatches | chudnovsky.cpp:92-97 | the issue loop pushes max(BATCH_NUM_, 0) requests; request i has id i and covers [i·BATCH_SIZE_, (i+1)·BATCH_SIZE_) |
| Reduction.BatchesCoverMoreThanN | chudnovsky.cpp:461-462 | BATCH_SIZE_ = N/BATCH_NUM_ + 1 is at least one, and the batches cover more than N terms |
| Reduction.IssuedBatchIsLeafBatch | chudnovsky.cpp:92-97 | issued batches are non-empty and contiguous: each starts where the previous one ends |
| Reduction.IssuedBatchFold | chudnovsky.cpp:92-97 | the fold of the issued batches' triples is the triple of [0, BATCH_NUM_·BATCH_SIZE_) |
| Reduction.ContiguousFold | chudnovsky.cpp:92-97 | any leaf batch whose ranges start at 0 and each begin where the previous one ended folds, left to right, to the triple of their union |
| Reduction.ProductRequests | chudnovsky.cpp:145-148 | a merge sends four product requests with consecutive ids, all servable products |
| Reduction.CombinePQTMergerV2 | chudnovsky.cpp:307-316 | whenever the four replies of the window are the products that merging x with y asks for (P·P, Q·Q, T·Q, P·T), the assembled triple is the merge `Combine(x, y)`; P and Q are the first two answers and T is the sum of the last two |
| Reduction.ProductsAssemble | chudnovsky.cpp:307-316 | the four product answers of a window assemble exactly the merge of its two triples |
| Reduction.CombinePQTCheckResultV2 | chudnovsky.cpp:320-326 | true exactly when every slot of the window [begin, end] is valid |
| Reduction.LevelRequests | chudnovsky.cpp:333-338 | a level with k windows sends 4k product requests |
| Reduction.LevelRequestsWindow | chudnovsky.cpp:333-338 | window k of a level sends ids 4k..4k+3, the products of nodes 2k and 2k+1 |
| Reduction.ProductWindowReady | chudnovsky.cpp:290-292 | once a product window is filled, its assembly is the merge of its two nodes |
| MasterV1.CombinePQTMasterV1 | chudnovsky.cpp:139-163 | one merge sends the four products and returns the merged triple under the id `id/2` of the left operand, spanning both intervals, whatever order the products arrive in |
| MasterV1.InitInv | chudnovsky.cpp:106-109 | an all-empty slot vector satisfies the reduction invariant before any pull |
| MasterV1.MergeKeepsInv | chudnovsky.cpp:117-127 | storing the merge of a window other than the level's last at slot begin/2 keeps the invariant with the window moved on by two |
| MasterV1.MergeEndsLevel | chudnovsky.cpp:117-127 | storing the merge of the level's last window completes the next level: the invariant holds on the halved level, window back at 0 |
| MasterV1.PullKeepsInv | chudnovsky.cpp:112-113 | storing an arriving leaf answer at its id keeps the invariant |
| MasterV1.BlockedMeansMore | chudnovsky.cpp:116 | a window that is not ready waits for a leaf still to come |
| MasterV1.FinalSlot | chudnovsky.cpp:131-134 | when one filled slot remains it holds the fold of all batch triples |
| MasterV1.MergeWindowV1 | chudnovsky.cpp:117-127 | one merge of a ready window stores the merged triple at slot b/2, keeps the master invariant, sends four product requests, and moves the window two slots on or, after the level's last window, halves the level and restarts at slot 0 |
| MasterV1.MergeReadyWindowsV1 | chudnovsky.cpp:116-128 | the inner loop keeps the invariant, counts four requests per merge, and stops only at a window that is not ready |
| MasterV1.PullAndMergeV1 | chudnovsky.cpp:110-132 | one pull and its merges keep the invariant; if more than one slot remains, leaves are still to come |
| MasterV1.ComputePQTMasterV1 | chudnovsky.cpp:104-135 | for every leaf arrival order and every product arrival order the result is the fold of the batch triples, after exactly 4·(BATCH_NUM_-1) product requests |
| MasterV1.PQTMasterV1 | chudnovsky.cpp:90-100 | version 1 issues BATCH_NUM_ contiguous batches and returns the triple of [0, BATCH_NUM_·BATCH_SIZE_) |
| MasterV2.CombinePQTSenderV2 | chudnovsky.cpp:330-342 | the sender requests the four products of the window under ids 2·id1.. 2·id1+3 and invalidates both slots, leaving their other fields intact |
| MasterV2.StoreWindowV2 | chudnovsky.cpp:291-292 | storing a completed window's merge at parent slot b/4 extends the filled prefix of the parent level by node b/4 of the next level |
| MasterV2.CollectReadyWindowsV2 | chudnovsky.cpp:290-301 | the collector's window loop fills parent slot k with node k of the next level for every window it has completed; when not done, the current window is incomplete |
| MasterV2.CombinePQTMasterV2 | chudnovsky.cpp:281-303 | for every product arrival order the collector fills parent slot k with id k and node k of the next level |
| MasterV2.InitInv | chudnovsky.cpp:242-245 | an all-empty slot vector satisfies the invariant before any pull |
| MasterV2.SendKeepsInv | chudnovsky.cpp:254-261 | sending a window's products extends the level's requests by that window and keeps the invariant |
| MasterV2.LevelEndInv | chudnovsky.cpp:264-266 | the collected parent level satisfies the invariant on the halved level |
| MasterV2.PullKeepsInv | chudnovsky.cpp:248-249 | storing an arriving leaf answer keeps the invariant |
| MasterV2.BlockedMeansMore | chudnovsky.cpp:252 | a window that is not ready waits for a leaf still to come |
| MasterV2.FinalSlot | chudnovsky.cpp:273-276 | when one filled slot remains it holds the fold of all batch triples |
| MasterV2.NextLevelV2 | chudnovsky.cpp:264-269 | the level switch yields the halved level with the invariant |
| MasterV2.SendWindowV2 | chudnovsky.cpp:254-269 | sending one ready window emits four requests and moves the window, or, after the last window, halves the level |
| MasterV2.MergeReadyWindowsV2 | chudnovsky.cpp:252-270 | the inner loop keeps the invariant, counts four requests per merge, and stops only at a window that is not ready |
| MasterV2.PullAndMergeV2 | chudnovsky.cpp:246-274 | one pull and its sends keep the invariant; if more than one slot remains, leaves are still to come |
| MasterV2.ComputePQTMasterV2 | chudnovsky.cpp:240-277 | for every leaf arrival order and every product arrival order the result is the fold of the batch triples, after exactly 4·(BATCH_NUM_-1) product requests |
| MasterV2.PQTMasterV2 | chudnovsky.cpp:226-236 | version 2 issues BATCH_NUM_ contiguous batches and returns the triple of [0, BATCH_NUM_·BATCH_SIZE_) |
| MasterV3.Combine2PQTSenderV3 | chudnovsky.cpp:433-440 | the Combine2 request carries the window's four products and its answer is their assembled merge; the four product slots are invalidated and nothing else changes |
| MasterV3.SendWindowV3 | chudnovsky.cpp:416-418 | one completed window adds the request that answers the next node of the next level |
| MasterV3.CollectReadyWindowsV3 | chudnovsky.cpp:416-427 | the collector's window loop has sent requests answering the completed prefix of the next level; when done, the whole next level |
| MasterV3.CombinePQTMasterV3 | chudnovsky.cpp:407-429 | for every product arrival order the collector sends one Combine2 request per node of the next level, answering that node |
| MasterV3.InitInv | chudnovsky.cpp:366-369 | an all-empty slot vector satisfies the invariant before any pull |
| MasterV3.PullKeepsInv | chudnovsky.cpp:372-373 | an arriving answer is to an outstanding request, and storing it at its id keeps the invariant |
| MasterV3.SendKeepsInv | chudnovsky.cpp:378-386 | sending the products of a window other than the level's last extends the level's requests by that window and keeps the invariant with the window moved on |
| MasterV3.SendEmptiesLevel | chudnovsky.cpp:378-386 | after the products of the level's last window are sent, every slot of the level is empty |
| MasterV3.SendProductsV3 | chudnovsky.cpp:378 | sending one ready window emits four requests, which extend the level's requests to the next window; the invariant holds with the window moved on, or, after the last window, every slot is empty |
| MasterV3.SentCountStep | chudnovsky.cpp:378-390 | each window adds four requests, and each level end also adds one Combine2 request per next-level node |
| MasterV3.NextLevelV3 | chudnovsky.cpp:388-395 | the level switch leaves one outstanding Combine2 request per next-level node, moves both arrival schedules on by one level, and the invariant holds on the halved level |
| MasterV3.SendLastPairV3 | chudnovsky.cpp:378-395 | the level's last window sends its four products and then one Combine2 request per next-level node; the invariant holds on the halved level with no arrival yet |
| MasterV3.SendWithinLevelV3 | chudnovsky.cpp:376-386 | sending every ready window but the level's last keeps the invariant and the sent count, and stops at a window that is not ready or at the last one |
| MasterV3.SendStepV3 | chudnovsky.cpp:376-386 | one round of that loop sends a ready window that is not the level's last, moves the window two slots on, and keeps the invariant and the count of requests sent |
| MasterV3.MergeReadyWindowsV3 | chudnovsky.cpp:376-396 | the inner loop keeps the invariant and the sent count, and stops at a window that is not ready or at a new level |
| MasterV3.NotDoneMeansMore | chudnovsky.cpp:399 | until the single last slot is filled, more answers are still to come |
| MasterV3.FinalSlot | chudnovsky.cpp:399-402 | when one filled slot remains it holds the fold of all batch triples |
| MasterV3.PullAndMergeV3 | chudnovsky.cpp:370-400 | one round makes progress, either by a pull or by halving the level, and keeps the invariant |
| MasterV3.ComputePQTMasterV3 | chudnovsky.cpp:364-403 | for every arrival order of compute-queue answers on every level and every product order, the result is the fold of the batch triples, after 4 products and 1 Combine2 per merge |
| MasterV3.PQTMasterV3 | chudnovsky.cpp:350-360 | version 3 issues BATCH_NUM_ contiguous batches and returns the triple of [0, BATCH_NUM_·BATCH_SIZE_) |
| SeqBak.TerminateReq | chudnovsky.seqbak.cpp:28 | the default request has id, interval and type -1, which a worker reads as terminate |
| SeqBak.LeafReq | chudnovsky.seqbak.cpp:29 | a leaf request carries its id and interval with type 0 and zero operands |
| SeqBak.OperandReq | chudnovsky.seqbak.cpp:31 | an operand request carries its id and operands a and b; its interval and type are unset |
| SeqBak.EmptyResp | chudnovsky.seqbak.cpp:48 | the default response has id, interval and type -1 and holds the all-zero triple |
| SeqBak.MergedResp | chudnovsky.seqbak.cpp:49 | a merged response carries its id, interval and triple with type 0 |
| SeqBak.ReplyLeaf | chudnovsky.seqbak.cpp:51 | the answer to a leaf request copies its id, interval and type and holds the triple |
| SeqBak.ReplyOperand | chudnovsky.seqbak.cpp:53 | the answer to an operand request copies only its id and holds the product; the rest is unset and the triple all zero |
| SeqBak.WorkerStepOf | chudnovsky.seqbak.cpp:217-255 | a worker halts exactly on id -1; otherwise it answers under the request's id, with the interval's triple (compute pool) or the product a·b (combine pool) |
| SeqBak.HaltIndex | chudnovsky.seqbak.cpp:217-224 | the worker consumes requests up to and including the first with id -1 |
| SeqBak.WorkerLoop | chudnovsky.seqbak.cpp:210-258 | a worker loop consumes exactly up to the first terminate request and publishes exactly the answers of the consumed requests |
| SeqBak.ShutdownRequests | chudnovsky.seqbak.cpp:147-155 | the destructor pushes one terminate request per worker |
| SeqBak.WorkerStopsAtShutdown | chudnovsky.seqbak.cpp:147-155 | a worker that has drained its pending requests stops at the first terminate request |
| SeqBak.BatchSizeFor | chudnovsky.seqbak.cpp:143-144 | the batch width is undefined exactly for a zero batch count; otherwise it is q+1 for the truncated quotient q, the unique q with 0 ≤ N − q·BATCH_NUM < abs(BATCH_NUM) (N/BATCH_NUM for a positive count, −(N/−BATCH_NUM) for a negative one); for a positive count the batches cover more than N terms |
| SeqBak.IssueRequests | chudnovsky.seqbak.cpp:168-173 | the issue loop pushes max(BATCH_NUM, 0) requests; request i covers [i·BATCH_SIZE, (i+1)·BATCH_SIZE) |
| SeqBak.IssuedRequestsFold | chudnovsky.seqbak.cpp:168-173 | issued intervals are non-empty, and the fold of their triples is the triple of [0, BATCH_NUM·BATCH_SIZE) |
| SeqBak.OperandRequests | chudnovsky.seqbak.cpp:268-271 | a merge sends four product requests with ids 0..3 |
| SeqBak.CombPQT | chudnovsky.seqbak.cpp:263-285 | for every product arrival order, the merge is the combined triple under id `id2/2`, spanning both intervals |
| SeqBak.MergedIdPresent | chudnovsky.seqbak.cpp:284 | the id `id/2` of a merge of a present slot is never -1, so a merged slot stays present |
| SeqBak.InitInv | chudnovsky.seqbak.cpp:181-182 | an all-empty slot vector satisfies the fold invariant |
| SeqBak.PullKeepsInv | chudnovsky.seqbak.cpp:187-188 | storing an arriving answer at its id keeps the fold invariant |
| SeqBak.ReadyWindowValue | chudnovsky.seqbak.cpp:191-192 | a ready window merges the fold of slots 0..e-1 with leaf e, giving the fold up to e |
| SeqBak.MergeKeepsInv | chudnovsky.seqbak.cpp:192-198 | storing the merge in slot e keeps the invariant with the window one step on |
| SeqBak.StuckMeansMissing | chudnovsky.seqbak.cpp:191 | a window that is not ready means leaf e has not arrived |
| SeqBak.FoldReadyWindows | chudnovsky.seqbak.cpp:191-199 | the inner loop merges while ready; it either reaches the last slot with every leaf arrived, or keeps the invariant and stops at a window that is not ready |
| SeqBak.AsWrittenExit | chudnovsky.seqbak.cpp:202-207 | at the outer exit, the returned last slot holds the exit value; for three or more batches the leaves 0..BATCH_NUM-2 have all arrived; no earlier pull met that condition |
| SeqBak.AsWrittenContinues | chudnovsky.seqbak.cpp:202 | when the outer loop does not exit, some leaf of 0..BATCH_NUM-2 is missing, so a pull remains |
| SeqBak.FoldRepliesAsWritten | chudnovsky.seqbak.cpp:181-207 | the loop as written blocks forever exactly for one batch; otherwise it returns after the first pull that completes leaves 0..BATCH_NUM-2 (after the first pull for two batches), and the result is the full fold only if the last leaf has also arrived |
| SeqBak.FoldReplies | chudnovsky.seqbak.cpp:181-207 | with the exit moved to after the last merge, the result is the fold of all batch triples, after 4·(BATCH_NUM-1) product requests |
| SeqBak.SingleSlotFilled | chudnovsky.seqbak.cpp:207 | with one batch, the only slot holds its triple once it has arrived |
| SeqBak.CompPQTMaster | chudnovsky.seqbak.cpp:166-208 | the master as written: issues BATCH_NUM batches whose fold is the triple of [0, BATCH_NUM·BATCH_SIZE), then exits as FoldRepliesAsWritten describes |
| SeqBak.CompPQTMasterFixed | chudnovsky.seqbak.cpp:166-208 | the corrected master returns the triple of [0, BATCH_NUM·BATCH_SIZE) for every arrival order |
| SeqBak.InOrderExitPoint | chudnovsky.seqbak.cpp:191-202 | with answers arriving in id order, the outer exit happens after BATCH_NUM-1 pulls, when the last slot is still empty |
| SeqBak.InOrderArrivalsReturnEmpty | chudnovsky.seqbak.cpp:166-208 | for three or more batches and answers in id order, the master as written returns the zero triple after BATCH_NUM-1 pulls, which is not the triple of the range |
| SeqBak.TwoBatchExitIsWrong | chudnovsky.seqbak.cpp:195-207 | with two batches, the value at the exit after one pull is never the triple of the range |
| SeqBak.TwoBatchesExitAfterFirstPull | chudnovsky.seqbak.cpp:166-208 | with two batches, the master as written returns after one pull with a value that is not the triple of the range |
| Config.NumOfCores | chudnovsky.cpp:21 | the worker count is the requested one when positive, otherwise the hardware's; it is never negative and zero only when none is requested and none is reported |
| Config.ConfigureBatches | chudnovsky.cpp:494-497 | with the worker count of chudnovsky.cpp:21, the configuration is undefined exactly when no worker is requested and none is reported; otherwise BATCH_NUM_ is a power of two of at least 8, BATCH_SIZE_ = N/BATCH_NUM_ + 1, and the batches cover more than N terms |
| Config.ConcurrentExtendsSequential | chudnovsky.cpp:496-497 | the concurrent range [0, BATCH_NUM_·BATCH_SIZE_) is longer than the single-threaded [0, N), and its triple is that of [0, N) of the single-threaded run (chudnovsky.cpp:470) merged with the surplus terms |
| Config.PQTByVersion | chudnovsky.cpp:508-517 | versions 1, 2 and 3 return a triple and agree on it, the triple of [0, BATCH_NUM_·BATCH_SIZE_), whatever the arrival orders; any other version returns nothing |

## Left out

- Threads, blocking queues and the `terminated`/`ready` flags are not modelled. A pull is the next id of an arrival order given as a parameter. The proofs cover every such order, but not interleavings of several masters or workers.
- `std::shared_ptr` aliasing is not modelled. Three places add into a shared `T` in place: `*res.T += …` in `CombinePQTMasterV1` (chudnovsky.cpp:160), in `PQTWorkerV1` (chudnovsky.cpp:205-208) and in `CombinePQTMergerV2` (chudnovsky.cpp:313). The model writes each as a plain addition on values, so it cannot see a shared product answer or operand being changed under another reader.
- `PIWorker`, `StartConcurrent`'s final division and square root, and the precision of the floating-point result (chudnovsky.cpp:444-454, 494-541) are not modelled: they are floating point. So are the `mpf_class` constructors (utils.cpp:15-16, 39).
- Timing, `ClockStart`/`ClockEnd`, console and file output and `SetCpuAffinity` (utils.cpp:52-82) are not modelled: they are side effects with no bearing on the triple.
- `main.cpp` and `gmptest.cpp` are not part of this model.
- N is an input: the computation of `N_` from a double (chudnovsky.cpp:15) is floating point.
- `std::thread::hardware_concurrency()` is an input of `Config.NumOfCores`.
- Ids and interval bounds are mathematical integers. The model does not capture 32-bit `int` overflow of `n1`, `n2` or `(n1+n2)/2` for very large term counts.
- The leaf factors `2*n2-1`, `6*n2-1` and `6*n2-5` are `int` expressions in the code (chudnovsky.cpp:64-66; chudnovsky.seqbak.cpp:297-299). They overflow once n2 > 357,913,941. `Pqt.Leaf` computes them exactly.
- `static_cast<int>(GetBatchNum(cores)) * 8` (chudnovsky.cpp:461, 496) overflows `int` once the core count reaches 2^28. `Config.ConfigureBatches` requires a core count below 2^28 for this reason: the model does not describe the overflowed batch count.
- Config.ConfigureBatches: does not state the integer bound BATCH_NUM_ ≤ 8·cores < 2·BATCH_NUM_. That bound holds on the 32-bit word (`BatchNum.GetBatchNum`), but converting it to integers was too costly to prove.
- A zero batch count is a division by zero in the code (chudnovsky.cpp:462, 497; chudnovsky.seqbak.cpp:144). The division happens before any request is issued. The model returns `None` for it.
- The seqbak `main` and the constructor's thread start-up are not modelled. Its `compPQT` (chudnovsky.seqbak.cpp:290-311) is the same recursion as `ComputePQT` and is modelled by `Pqt.ComputePQT`.

## Findings

| source | as written | input that shows it | evidently intended | confidence | as-written member | corrected member |
|---|---|---|---|---|---|---|
| chudnovsky.seqbak.cpp:195-202 | the outer loop leaves as soon as the window's end reaches the last slot, even when that slot's merge has not happened; with one batch it never leaves | BATCH_NUM = 4, answers arriving in id order 0,1,2: after the third pull the master returns the empty last slot, the zero triple; BATCH_NUM = 2: it returns after the first pull; BATCH_NUM = 1: it blocks forever | leave only after the merge into the last slot, or at once when there is a single batch, and return the triple of [0, BATCH_NUM·BATCH_SIZE) | not executed | SeqBak.CompPQTMaster, SeqBak.InOrderArrivalsReturnEmpty, SeqBak.TwoBatchesExitAfterFirstPull | SeqBak.CompPQTMasterFixed |
