# wcol verification

wcol is a columnar file format with a query engine that runs chunk by chunk over a pool of workers,
and a view-model layer that keeps a remote copy of an explorer's state up to date with patches. This
project models the parts of it whose correctness is not visible in one function body, and proves
what they are for:

- **View model and replica** (`ViewModelPatch`, `ViewModelDiff`, `EngineSync`, `WorkerClient`,
  `ReplicaSession`): a recursive diff of JSON values is undone by both patch interpreters, the Rust
  one and the TypeScript one; over whole sessions the copy follows the engine; the client's job
  queue settles the k-th job with the k-th reply.
- **Queries over chunks** (`ChunkScheduler`, `ContextLock`, `QueryRun`, `QueryEnd`): several
  consumers share one prefetching queue, any interleaving at the awaits is allowed, results are
  stored by chunk id and folded in chunk order, and a promise chain runs the queries of one context
  one at a time, up to what a failed query leaves behind.
- **ORDER BY ... LIMIT ... OFFSET** (`RowOrder`, `KeyOrder`, `TopK`, `RowPhase`, `RowCandidates`,
  `RankedPage`): bounded heaps per task, encoded, merged and cut to a page, against sorting every
  selected row by what its keys stand for.
- **GROUP BY** (`SplitMix`, `SynthGroupBy`, `HashGroupBy`, `GroupKeys`): the synthetic engines
  against counting, and the hash group-by with its collision handling.
- **The file** (`Sections`, `FileRecords`, `FileLayout`, `FileReading`, `Dictionaries`,
  `DictSection`, `BitPacked`): what the writer lays out with running cursors is what the reader
  finds.
- **SQL** (`SqlAst`, `SqlLexer`, `SqlParser`, `SqlParserObject`, `SqlGrammar`, `SqlTokens`,
  `SqlRoundTrip`, `SqlClauses`, `SqlForms`, `SqlQueryRoundTrip`, `SqlPrint`, `SqlPanic`,
  `WhereLowering`, `LikePattern`, `Calendar`): the parser against a grammar of texts, in both
  directions, and where it stops the program, WHERE against the filters and the stack program it is
  lowered to, date literals against counting days.
- **Fast forms** (`SubsliceSearch`, `ReadCache`, `Materialize`, `ProjectionBlob`): block search
  against the plain search, the shared read cache against the file, scattered materialisation
  against the rows asked for.

`Wrappers`, `Words`, `Ordering`, `LittleEndian` and `Arithmetic` are the shared vocabulary: options
and results, exclusive or, sorting and first appearances, byte order, and the arithmetic that needs
proof.

Where the code changes state step by step, the model is a class or a loop, proved equal to a
function of the old state, and the properties are proved about that function. Concurrent code is a
transition system whose steps are the stretches between two awaits, or between two lock operations;
the properties hold of every run. LZ4 is a pair of functions of which only "decompressing what was
compressed gives it back" is used, and reading a file, running an effect, hashing and the
application behind the explorer are parameters.

Several properties hold only under a condition that the code does not check. Each of those is proved
as an equivalence with that condition, and the failing side has a concrete run where it is not
plain:

- every chunk taken from the queue is found loaded exactly when the prefetch cap is at least the
  number of consumers or the number of chunks (the cap the code computes is always enough);
- when the wait for a query's consumers ends, none of them has a step left exactly when none failed
  or the one that failed was the last one working; otherwise the failed query reads on to its last
  chunk, if nothing else fails;
- a task that fails between taking a grouped plan's limit off and putting it back leaves the plan
  without it, and that is the only way in which a worker's tasks change its plan;
- a request that fails after handling an event loses its patches, and the copy then differs from the
  engine exactly when those events changed the view model;
- when the worker reports a fault while a request is out, the client forgets its jobs but not the
  reply to come, and hands it to the next job made; it routes replies correctly exactly when nothing
  was out;
- worker row ranges tile the rows exactly when rows times workers stays below 2^64;
- a string whose first row finds its first group key taken is given a new group for every one of its
  rows, so a group-by has one group for each string exactly when that happens to no string that is
  met more than once; groups never mix two strings;
- group counts add up to the rows exactly when no string that found its first key free occurs more
  than 2^32 - 1 times;
- two rows have the same group key string exactly when their key columns hold equal values, doubles
  being cut to whole numbers first: 1.2 and 1.7 fall into one group;
- the length an index entry stores is that of the page exactly when it fits 32 bits;
- the reader of a nullable column asks for the null page exactly when there is one whose stored
  length is not 0 and which does not start at offset 2^32 - 1: the writer marks an absent page with
  a 64-bit value, the reader compares with the 32-bit one, and the length test does the work;
- a page payload loads back exactly when it is empty or compresses to at least one byte;
- the byte search in blocks agrees with the plain one on fewer than 16 bytes only if no stray match
  follows the haystack in memory;
- a comparison with a literal on the left is lowered without turning the operator around, so its
  plan is right for all rows exactly when the operator is = or <>, if the literal is a number;
- a filter whose number is NaN is compared in two ways: in blocks nothing differs from it, one value
  at a time every number does, and that is the one case in which the two ways disagree;
- a member of a list that is no literal is dropped, so the plan of a list of literals and columns is
  right for all rows exactly when it has no column;
- a conjunct without a column or without a literal is dropped, so the plan of two compared columns
  accepts a row that the comparison rejects, whatever the operator;
- a string is compared through its dictionary id, on either side of the column, which is right for
  all tables exactly when the operator is = or <>, and needs a dictionary without repeats;
- LIKE looks for the pattern without the percent signs at its ends, which is right for all texts
  exactly when the pattern starts and ends with one and has no other sign;
- a list loses its numbers exactly when one of its literals is put off as text;
- an unterminated string literal loses its last byte, and parsing stops the program exactly when
  that byte ends a character of several bytes and the parser gets to the literal as an expression,
  which is when the input in front of it is refused at its end for want of one;
- the reserved value `__wcol_other__` itself has an id exactly when the cap was reached;
- day and month of a date literal are only checked against 31 and 12, a day past the end of its
  month means a day of the next month, and an accepted literal has the form of a full-date exactly
  when it has no sign.

## Model

| member | source | states |
|---|---|---|
| `ViewModelPatch.ApplyPatchLoop` | engine-shell/rust/engine-kernel/src/patch.rs:35-54 | the loop over patches, stopping at the first one that cannot be applied, is the fold of single patches |
| `ViewModelPatch.LeafInContext` | engine-shell/rust/engine-kernel/src/patch.rs:56-131 | a patch below an existing path changes exactly the container at that path as the leaf rules say, and nothing beside it |
| `ViewModelPatch.AtPut` | engine-shell/rust/engine-kernel/src/patch.rs:56-91 | what is put at a path is found at that path |
| `ViewModelPatch.PutPut` | engine-shell/rust/engine-kernel/src/patch.rs:56-91 | a second value at one path replaces the first without a trace |
| `ViewModelPatch.EqIsNormal` | engine-shell/rust/engine-kernel/src/diff.rs:8-11 | two JSON values are equal if and only if they are the same once every negative float zero is made positive |
| `ViewModelPatch.ApplyCongruent` | engine-shell/rust/engine-kernel/src/patch.rs:35-131 | values that are the same but for the signs of float zeros stay so, or are refused together, under every patch list |
| `ViewModelPatch.TsApplyCongruent` | engine-shell/ts/src/patch.ts:3-79 | the TypeScript interpreter treats equal values alike as well |
| `ViewModelPatch.TsApplyConcat` | engine-shell/ts/src/patch.ts:3-10 | applying one list of patches and then another is applying their concatenation, so patches of several events may be joined |
| `ViewModelPatch.InterpretersAgree` | engine-shell/rust/engine-kernel/src/patch.rs:43-131 | the two interpreters give the same result or both refuse a patch if and only if it does not insert at the root, does not reach behind the end of an array, and names no array position by a text that Rust accepts |
| `ViewModelPatch.TextNamesIndex` | engine-shell/rust/engine-kernel/src/patch.rs:133-147 | the decimal text of a number names that position, with a plus sign or without |
| `ViewModelPatch.TextsThatName` | engine-shell/rust/engine-kernel/src/patch.rs:133-147 | a text names a position if and only if it is figures, perhaps behind a plus sign |
| `ViewModelDiff.DiffAtLoop` | engine-shell/rust/engine-kernel/src/diff.rs:8-21 | the recursive diff with its pushing loops produces the specified patch list |
| `ViewModelDiff.DiffArraysLoop` | engine-shell/rust/engine-kernel/src/diff.rs:23-58 | common elements first, then removals from the end downwards, or appends upwards |
| `ViewModelDiff.DiffObjectsLoop` | engine-shell/rust/engine-kernel/src/diff.rs:60-83 | keys of both objects in ascending order, each added, removed or compared |
| `ViewModelDiff.DiffAtReaches` | engine-shell/rust/engine-kernel/src/diff.rs:8-83 | applied inside any larger value that holds `prev` at the path, the patches rebuild `next` there one patch at a time, each finding the containers it names, under both interpreters |
| `ViewModelDiff.DiffArraysReaches` | engine-shell/rust/engine-kernel/src/diff.rs:23-58 | the same for arrays that grow, shrink or change, whatever is nested in them |
| `ViewModelDiff.DiffObjectsReaches` | engine-shell/rust/engine-kernel/src/diff.rs:60-83 | the same for objects that gain, lose or change keys |
| `ViewModelDiff.DiffThenApply` | engine-shell/rust/engine-kernel/src/patch.rs:35-131 | a diff, applied to the old value by either interpreter, gives the new value but for the signs of float zeros, without panic or exception |
| `ViewModelDiff.DiffEmptyIffEqual` | engine-shell/rust/engine-kernel/src/diff.rs:4-21 | a diff is empty if and only if the two values are the same but for the signs of float zeros |
| `EngineSync.Engine.Init` | apps/explorer/engine/src/engine.rs:22-29 | state and view model are reset together |
| `EngineSync.Engine.HandleEvent` | apps/explorer/engine/src/engine.rs:31-76 | the new view model is that of the new state, and the patches are the diff from the old one to it |
| `EngineSync.RunPipeline` | apps/explorer/demo/worker/wcol-effect-loop.ts:46-78 | the event loop handles events first in first out, appends what effects produce, and ends answered, failed, waiting or refused as specified, with the engine consistent in every case |
| `EngineSync.HandledInOrder` | apps/explorer/demo/worker/wcol-effect-loop.ts:46-78 | a request handles events first in, first out, those given and then those effects produced in the order of the effects, and an answer has the diffs of them all; without an event there is no answer |
| `EngineSync.PipelineTracks` | apps/explorer/demo/worker/wcol-effect-loop.ts:46-78 | an answered request's joined patches lead the copy to the view model of the engine at the end of the request |
| `EngineSync.CopyAfterRequest` | apps/explorer/demo/worker/wcol-effect-loop.ts:46-78 | after one request the copy equals the engine if and only if the request was answered or its events left the view model equal |
| `EngineSync.CopyFollowsEngine` | apps/explorer/demo/worker/wcol-effect-loop.ts:46-78 | over any session the copy equals the engine after every request if and only if no unanswered request changed the view model |
| `EngineSync.FailedEffectLosesPatches` | apps/explorer/demo/worker/wcol-effect-loop.ts:68-71 | a concrete session in which an effect throws and the copy stays behind |
| `WorkerClient.Client.PumpJobs` | apps/explorer/demo/worker/wcol-client.ts:87-101 | posts the first job only when idle, and marks the client busy |
| `WorkerClient.Client.EnqueueJob` | apps/explorer/demo/worker/wcol-client.ts:103-117 | a new job joins the end and is posted at once only when it is alone |
| `WorkerClient.Client.OnMessage` | apps/explorer/demo/worker/wcol-client.ts:63-79 | a reply settles the first job, if there is one, and the next job is posted |
| `WorkerClient.Client.OnError` | apps/explorer/demo/worker/wcol-client.ts:81-85 | a fault rejects every job, leaves the client idle and posts nothing |
| `WorkerClient.RunSynced` | apps/explorer/demo/worker/wcol-client.ts:58-120 | over every run in which faults come only when no reply is owed, at most one request is out and it is the first job's |
| `WorkerClient.KthReplySettlesKthJob` | apps/explorer/demo/worker/wcol-client.ts:63-117 | over every run without faults the k-th settled job is the k-th job and got the k-th reply |
| `WorkerClient.SettledInOrder` | apps/explorer/demo/worker/wcol-client.ts:63-101 | over every run without faults, jobs are settled in the order they were queued, none twice |
| `WorkerClient.FaultRouting` | apps/explorer/demo/worker/wcol-client.ts:81-101 | after a fault every further reply still settles its own job, in all fault-free continuations, if and only if no request was out when the fault came |
| `WorkerClient.StaleReply` | apps/explorer/demo/worker/wcol-client.ts:81-101 | otherwise a continuation is built in which the next job made is settled with the old job's reply |
| `ReplicaSession.CopyRightExactly` | apps/explorer/demo/worker/wcol-effect-loop.ts:46-88 | over a session that begins with `init`, the copy is right after each of the first n replies if and only if each of these requests starts over, is answered, or leaves the view model equal |
| `ReplicaSession.ReplicaFollows` | apps/explorer/demo/worker/wcol-client.ts:58-120 | over every fault-free run of client, worker and copy, `init` requests included, the copy is what the delivered replies make of it one after the other and the engine is the one that served the answered requests; the copy equalled the engine after every reply if and only if no request lost patches |
| `ReplicaSession.AllServed` | apps/explorer/demo/worker/wcol-client.ts:58-120 | requests whose effects all end can be served to the last: some run without faults delivers every reply |
| `ChunkScheduler.ChunkQueue.StageLoads` | src/runtime/exec/chunks.ts:131-151 | loads are started in chunk order until the cap is reached or the chunks run out |
| `ChunkScheduler.ChunkQueue.BeginNext` | src/runtime/exec/chunks.ts:153-175 | takes the next chunk in order and refills, or reports the end |
| `ChunkScheduler.ChunkQueue.EndNext` | src/runtime/exec/chunks.ts:153-175 | forgets the finished chunk and refills |
| `ChunkScheduler.RunFound` | src/runtime/exec/chunks.ts:131-175 | for every interleaving at the awaits, failures included, a consumer that holds a chunk finds its load staged, and at most the cap is staged |
| `ChunkScheduler.RunKeeps` | src/runtime/exec/chunks.ts:131-175 | every run keeps the invariant: staged chunks are those ahead and those held, no chunk is held by two consumers or held and finished, each finished chunk was delivered once, and stored results are those of their chunks |
| `ChunkScheduler.PrefetchCapSuffices` | src/runtime/exec/chunks.ts:161 | the cap computed from the concurrency is at least the number of consumers started; it is twice that number, and 4 if that is more |
| `ChunkScheduler.CapBoundExact` | src/runtime/exec/chunks.ts:131-175 | every interleaving finds its chunks if and only if the cap is at least the number of consumers or of chunks; otherwise a run of requests alone fails |
| `ChunkScheduler.RunBounded` | src/runtime/exec/chunks.ts:153-175 | every run is at most as long as the work left at its start, so the loops end |
| `ChunkScheduler.NeverStuck` | src/runtime/exec/chunks.ts:153-175 | a consumer that has not finished can always take a step |
| `ChunkScheduler.StepsExactly` | src/runtime/exec/chunks.ts:153-175 | which steps a consumer can make and where they take it, and that they change no other consumer |
| `ChunkScheduler.CompleteRun` | src/runtime/exec/chunks.ts:153-175 | when all consumers have finished without failure, every chunk was delivered exactly once and its result is stored under its id |
| `ContextLock.OneAtATimeInCallOrder` | src/runtime/exec/chunks.ts:32-45 | over every run, throwing queries included, at most one query of a context runs, and a query starts only after all earlier calls ended |
| `ContextLock.LockProgress` | src/runtime/exec/chunks.ts:32-45 | whenever a call has not ended, in any run, some query is running or some step of the chain is possible: a query that throws does not block it |
| `ContextLock.CallsEnd` | src/runtime/exec/chunks.ts:32-45 | any number of calls can be made and ended, whichever of them throw |
| `QueryEnd.QuietEnd` | src/runtime/exec/chunks.ts:153-175 | when the wait for all consumers ends, at the first failure or when all are done, no consumer has a step left if and only if none failed or the one that failed was the last one working |
| `QueryEnd.FailedQueryReadsOn` | src/runtime/exec/chunks.ts:153-175 | after a failure that leaves a consumer working, every run without further failure or early stop dispatches all the chunks that are left before it comes to rest |
| `QueryEnd.StartedAfterTheEnd` | src/runtime/exec/chunks.ts:153-175 | a concrete run in which a second task is started after the first one's failure has ended the wait |
| `QueryRun.WorkerPlan.ExecuteTask` | src/runtime/workers/core.ts:87-126 | a task ends with its first failing call or with a partial that depends only on its chunk and the plan, not on earlier tasks; the plan stays as it was unless a call failed while its limit was off, which leaves it without one; a limit of 2^31 and more reads as negative and stays on |
| `QueryRun.ReadyAfter` | src/runtime/workers/core.ts:87-126 | after any tasks, failing ones included, a worker's plan is as it was if and only if none of them failed while the limit was off; otherwise only its limit is gone |
| `QueryRun.LimitOffExactly` | src/runtime/workers/core.ts:99-103 | the limit is taken off for grouped plans without ORDER BY whose limit is above 0 and below 2^31, and for no others |
| `QueryRun.ReducePartials` | src/runtime/exec/chunks.ts:213-240 | the loop merges the stored partials in chunk order, skipping missing ones |
| `QueryRun.BuffersMerged` | src/runtime/exec/chunks.ts:213-240 | what is merged is every buffer that is not empty, once, chunk after chunk and in the order rows, candidates, aggregates, groups, each as what it is, whatever chunks have no partial |
| `QueryRun.ReducerApplies` | src/runtime/exec/chunks.ts:213-240 | the reducer's result is those merges done one after the other |
| `QueryRun.ResultIsChunkOrderFold` | src/runtime/exec/chunks.ts:86-127 | for every assignment of chunks to consumers and every completion order, the reduced result is the fold of the per-chunk partials in chunk order |
| `QueryRun.ResultOfQuery` | src/runtime/exec/chunks.ts:86-127 | for every assignment of chunks to consumers and every completion order, the result is the merges of the chunks' own buffers that are not empty, in chunk order |
| `QueryRun.ResultsReachTheirCallers` | src/runtime/exec/chunk-workers.ts:107-177 | over every run of a worker link, failures included, a task that resolved got the result of its own payload, every posted task is pending or settled, and settling is final |
| `QueryRun.PendingIsServed` | src/runtime/exec/chunk-workers.ts:107-177 | after any run a pending task that the worker still has can be answered, and then has its own result |
| `QueryRun.PendingIsSettled` | src/runtime/exec/chunk-workers.ts:107-177 | after any run a pending task that the worker no longer has is settled by replies that are on their way |
| `QueryRun.TaskIsServed` | src/runtime/exec/chunk-workers.ts:107-177 | after any run a task can be posted, worked on and received, and then has its own result |
| `QueryRun.FailRejects` | src/runtime/exec/chunk-workers.ts:107-177 | a failure can come at any time; it rejects every pending task and changes nothing else that is settled |
| `RowOrder.CandidateTotalOrder` | rust/wcol-decoder/src/types.rs:313-350 | comparing candidates by first key, second key and row id is a total order in which only identical candidates tie |
| `KeyOrder.NumbersByValue` | rust/wcol-decoder/src/types.rs:312-323 | finite doubles, read from sign, exponent and fraction, compare as the numbers they stand for, the negative zero before the positive one; infinities and NaNs lie outside by sign |
| `KeyOrder.KeysByMeaning` | rust/wcol-decoder/src/types.rs:312-323 | one key compares less than another if and only if it stands before it: numbers by value, texts at their first difference, numbers before texts before nulls |
| `KeyOrder.CandidatesByMeaning` | rust/wcol-decoder/src/types.rs:339-352 | candidates compare by the first key, then by the second, an absent one first, then by row |
| `KeyOrder.PageAscends` | rust/wcol-decoder/src/ffi/row_candidates.rs:15-27 | the rows of a page stand one before the other in that order |
| `KeyOrder.MinusOneFirst` | rust/wcol-decoder/src/types.rs:318 | the key -1 compares less than the key 1 |
| `RowOrder.BuildDictLexRanks` | rust/wcol-decoder/src/ffi/row_order.rs:13-30 | the array is a ranking: a permutation of the ids that ascends by the bytes of the values, equal values by id |
| `RowOrder.CastMonotone` | rust/wcol-decoder/src/ffi/row_order.rs:55-79 | turning a 32-bit rank into a double keeps the strict order under the total order of doubles |
| `KeyOrder.CastExact` | rust/wcol-decoder/src/ffi/row_order.rs:55-79 | the double a rank is cast to stands for the rank |
| `RowOrder.RankComparesBytes` | rust/wcol-decoder/src/ffi/row_order.rs:13-79 | comparing rank keys orders ids by their values' bytes and then by id, so it is comparing the values if and only if they differ or the ids are the same |
| `RankedPage.PageByRanks` | rust/wcol-decoder/src/ffi/row_order.rs:13-79 | for one or two ORDER BY columns and dictionaries without repeats, sorting by ranks and cutting the page gives the rows of sorting by bytes and cutting the page |
| `TopK.PushKeepsTop` | rust/wcol-decoder/src/ffi/row_candidates.rs:145-160 | the bounded push turns the best k of what was seen into the best k of that and the new candidate |
| `TopK.PushAllKeepsTop` | rust/wcol-decoder/src/ffi/row_candidates.rs:145-160 | the same over any sequence of pushes |
| `TopK.MergeTop` | rust/wcol-decoder/src/ffi/row_candidates.rs:29-85 | the best k of two best-k heaps are the best k of everything both heaps were made from |
| `TopK.TopIsPrefix` | rust/wcol-decoder/src/ffi/row_candidates.rs:16-27 | the sorted heap is the beginning of all candidates sorted |
| `TopK.TopPage` | rust/wcol-decoder/src/ffi/row_candidates.rs:8-27 | skipping `offset` and taking `limit` from the sorted heap is doing so from all candidates sorted |
| `RowPhase.IdsDiffer` | rust/wcol-decoder/src/ffi/row_exec.rs:91-97 | two rows of a file have the same row id if and only if they are the same row of the same chunk |
| `RowPhase.ConsideredAt` | rust/wcol-decoder/src/ffi/row_exec.rs:50-110 | every selected row of a chunk with keys is considered once, in order, with its own keys and the id that leads back to its chunk and place |
| `RowPhase.IdAt` | rust/wcol-decoder/src/ffi/row_exec.rs:80-110 | without ORDER BY every selected row gives, in order, the id that leads back to its chunk and place |
| `RowPhase.FirstRowsKept` | rust/wcol-decoder/src/ffi/row_exec.rs:115-132 | without ORDER BY a run over chunks keeps the first `limit + offset` selected rows in order |
| `RowPhase.RowsOfPlan` | rust/wcol-decoder/src/ffi/row_exec.rs:115-132 | a plan without ORDER BY keeps as many rows as limit and offset ask for together, up to the machine word, or all that there are, and none for limit 0 |
| `RowPhase.HeapAfterChunks` | rust/wcol-decoder/src/ffi/row_exec.rs:28-114 | running the row phase chunk after chunk is offering all selected rows to one heap |
| `RowPhase.ConsideredInAnyOrder` | rust/wcol-decoder/src/ffi/row_exec.rs:28-114 | which candidates are offered does not depend on the order in which chunks are run |
| `RowCandidates.Plan.ExecuteRowPhase` | rust/wcol-decoder/src/ffi/row_exec.rs:11-135 | limit 0 changes nothing; with ORDER BY the heap is the heap after this chunk and the rows stay; without it the rows are the first ones up to the limit and the heap stays |
| `RowCandidates.Plan.PushCandidate` | rust/wcol-decoder/src/ffi/row_candidates.rs:145-160 | below capacity the candidate enters, at capacity it replaces the greatest if it is less |
| `RowCandidates.Plan.MergeRowCandidates` | rust/wcol-decoder/src/ffi/row_candidates.rs:29-85 | pushes the candidates of a buffer, keeps those before a malformed one and answers -2; does nothing without limit or ORDER BY |
| `RowCandidates.Plan.CopyRowCandidates` | rust/wcol-decoder/src/ffi/row_candidates.rs:87-143 | writes every candidate of the heap and nothing behind them, or reports the size needed and leaves the buffer alone |
| `RowCandidates.Plan.FinalizeRows` | rust/wcol-decoder/src/ffi/row_candidates.rs:16-27 | the rows become the page of the sorted heap and the heap is emptied; an empty heap leaves the rows |
| `RowCandidates.DecodeEncoded` | rust/wcol-decoder/src/ffi/row_candidates.rs:29-143 | a candidate decodes where it was encoded, to itself and to the place behind it |
| `RowCandidates.RefusedExactly` | rust/wcol-decoder/src/ffi/row_candidates.rs:29-85 | a candidate is refused if and only if its header or its keys go beyond the buffer or a kind of key does not exist, and one that is read ends behind its keys |
| `RowCandidates.MergeEncoded` | rust/wcol-decoder/src/ffi/row_candidates.rs:29-143 | merging an encoded list pushes exactly its candidates in order and reports success |
| `RowCandidates.PageOfMergedHeaps` | rust/wcol-decoder/src/ffi/row_candidates.rs:8-176 | however rows are split into tasks and heaps listed, encode, merge and finalise give the row ids of sort-all, skip, take |
| `RowCandidates.PageOfAllRows` | rust/wcol-decoder/src/ffi/row_exec.rs:28-114 | the same from the chunks on: whichever chunks each task runs, in whatever order, the rows are the page of all selected rows of the file sorted |
| `SplitMix.WordBits` | rust/wcol-synth-groupby/src/main.rs:593-615 | the bits of `^` and `&` on words are those of "different" and "both" |
| `SplitMix.MixingLosesNothing` | rust/wcol-synth-groupby/src/main.rs:609-615 | two words are mixed to the same word if and only if they are the same: every shift can be undone and every factor has an inverse |
| `SplitMix.MixingReachesAll` | rust/wcol-synth-groupby/src/main.rs:609-615 | every 64-bit word is the mixture of one |
| `SynthGroupBy.KeyDrawn` | rust/wcol-synth-groupby/src/main.rs:598-607 | a key is below the number of keys it is drawn from: without hot keys all keys at threshold zero, the hot ones at the greatest threshold |
| `SynthGroupBy.GroupsBounded` | rust/wcol-synth-groupby/src/main.rs:155-162 | a range of rows has no more groups than rows, and no more than distinct keys when the hot keys are no more than those, as the runner sees to |
| `SynthGroupBy.PartitionForKey` | rust/wcol-synth-groupby/src/main.rs:593-596 | the masked partition is in range, for every partition count |
| `SynthGroupBy.PartitionIsRemainder` | rust/wcol-synth-groupby/src/main.rs:593-596 | for a power of two, as the runner rounds the number of partitions to, the partition is the remainder of the mixed key |
| `SynthGroupBy.PartitionsReached` | rust/wcol-synth-groupby/src/main.rs:184-196 | then every partition has keys |
| `SynthGroupBy.RangesTile` | rust/wcol-synth-groupby/src/main.rs:585-591 | worker row ranges follow each other from 0 to the last row if and only if rows times workers is below 2^64 |
| `SynthGroupBy.LastEndWraps` | rust/wcol-synth-groupby/src/main.rs:585-591 | beyond that bound the last range ends too early |
| `SynthGroupBy.RunThreadLocalMerge` | rust/wcol-synth-groupby/src/main.rs:301-355 | for every worker count with rows times workers below 2^64, groups is the number of distinct keys and row_sum the number of rows |
| `SynthGroupBy.RunPartitionOwner` | rust/wcol-synth-groupby/src/main.rs:357-471 | the same for every worker and partition count, with hash maps per partition and with sorted runs |
| `SynthGroupBy.RunPartitionOwnerDirectHash` | rust/wcol-synth-groupby/src/main.rs:473-559 | the same when each partition hashes the records of all workers directly |
| `SynthGroupBy.SummariseBySort` | rust/wcol-synth-groupby/src/main.rs:357-471 | scanning runs of the sorted records counts the distinct keys and all rows, as hashing does |
| `SynthGroupBy.CountRun` | rust/wcol-synth-groupby/src/main.rs:357-471 | a run covers exactly the records with the key it starts with, and adds up their counts |
| `SynthGroupBy.PartKeys` | rust/wcol-synth-groupby/src/main.rs:593-596 | a partition holds exactly the keys that map to it, so equal keys stay together |
| `SynthGroupBy.RowsInAll` | rust/wcol-synth-groupby/src/main.rs:357-559 | the partitions together hold every row of a range once |
| `HashGroupBy.RemapLoop` | rust/wcol-decoder/src/ffi/exec.rs:827-843 | the search for a free key tries seeds in ascending order and returns the first key not in use, if any |
| `HashGroupBy.KeyOfRow` | rust/wcol-decoder/src/ffi/exec.rs:827-843 | a row is counted under two hashes of its bytes, or, when other bytes hold that key, under the first free key with the second hash taken again with seeds from 1 on |
| `HashGroupBy.GroupPhase.ProcessRow` | rust/wcol-decoder/src/ffi/exec.rs:612-659 | a row's key string joins the group of its key, or a remapped new one, and the count goes up without wrapping |
| `HashGroupBy.GroupPhase.ProcessChunk` | rust/wcol-decoder/src/ffi/exec.rs:729-751 | a chunk counts exactly its selected rows whose group key is valid, in order |
| `HashGroupBy.NeverMixed` | rust/wcol-decoder/src/ffi/exec.rs:612-659 | whatever the hash, two rows in one group have the same key string |
| `HashGroupBy.KeysInFirstSeenOrder` | rust/wcol-decoder/src/ffi/exec.rs:612-659 | the key list names each group once, in the order in which rows first reached it |
| `HashGroupBy.HoldsWhenFree` | rust/wcol-decoder/src/ffi/exec.rs:612-659 | a string holds its first key at the end if and only if its first row found that key free |
| `HashGroupBy.CountsSumToRows` | rust/wcol-decoder/src/ffi/exec.rs:729-751 | the counts over all groups add up to the rows if and only if no string whose first row found its first key free occurs more than 2^32 - 1 times |
| `HashGroupBy.HowManyGroups` | rust/wcol-decoder/src/ffi/exec.rs:827-843 | a string has one group if it holds its first key, and otherwise as many groups as rows |
| `HashGroupBy.OneGroupEach` | rust/wcol-decoder/src/ffi/exec.rs:827-843 | there is one group for each distinct string if and only if the first row of every string met more than once finds the string's first key free |
| `HashGroupBy.WithoutCollision` | rust/wcol-decoder/src/ffi/exec.rs:612-659 | if no two strings share a first key, grouping succeeds and every string is under its own first key |
| `HashGroupBy.OneGroupWithoutCollision` | rust/wcol-decoder/src/ffi/exec.rs:612-659 | and then there is exactly one group for each distinct string |
| `HashGroupBy.CountsWithoutCollision` | rust/wcol-decoder/src/ffi/exec.rs:729-751 | and the counts add up to the rows if and only if no string occurs more than 2^32 - 1 times |
| `HashGroupBy.CollisionSplits` | rust/wcol-decoder/src/ffi/exec.rs:838 | a concrete hash and three rows for which one string ends up in two groups |
| `GroupKeys.BuildRepr` | rust/wcol-decoder/src/query/group.rs:39-65 | the key string built column by column is the specified encoding of the row's values |
| `GroupKeys.WordIs` | rust/wcol-decoder/src/query/group.rs:39-65 | a number's word is the number, a negative one modulo 2^32 or 2^64 by its width, and a double's is the whole number it is cut to |
| `GroupKeys.CutIs` | rust/wcol-decoder/src/query/group.rs:39-65 | a double is cut to the whole number below it, what is below 1 or no number to 0, and what is too large to 2^64 - 1 |
| `GroupKeys.PayloadTells` | rust/wcol-decoder/src/query/group.rs:71-104 | two values of a column have the same key bytes if and only if they are equal, or are doubles that are cut and saturated to the same word |
| `GroupKeys.ReprTellsRows` | rust/wcol-decoder/src/query/group.rs:39-104 | two rows have the same key string if and only if that holds in every key column |
| `GroupKeys.ReprTellsValues` | rust/wcol-decoder/src/query/group.rs:39-104 | so grouping by key string is grouping by value when no key column holds doubles |
| `GroupKeys.DoublesMerge` | rust/wcol-decoder/src/query/group.rs:92 | the doubles 1.2 and 1.7 beside one string have the same key string |
| `FileRecords.WriteHeader` | rust/wcol-encoder/src/format.rs:272-303 | the header buffer, written field by field at fixed offsets, is magic, fields in order, and zeros |
| `FileRecords.HeaderRoundTrip` | rust/wcol-decoder/src/parse.rs:9-36 | parsing a built header of the current version, whatever follows it, gives all its fields back |
| `FileRecords.BuildSchemaLoop` | rust/wcol-encoder/src/format.rs:96-115 | the schema section is built column by column, or refused at the first name that is too long |
| `FileRecords.SchemaBuilds` | rust/wcol-encoder/src/format.rs:96-115 | building succeeds if and only if every column name fits its 16-bit length |
| `FileRecords.ParseSchema` | rust/wcol-decoder/src/parse.rs:38-79 | the parser's loop with its moving offset reads column after column or fails as specified |
| `FileRecords.SchemaRoundTrip` | rust/wcol-decoder/src/parse.rs:38-79 | a built schema whose names are UTF-8 parses to the same columns: names, types, flags and signed scale |
| `FileRecords.ParseChunkIndex` | rust/wcol-decoder/src/parse.rs:144-197 | an index block is read entry by entry, a short one is refused |
| `FileRecords.IndexRoundTrip` | rust/wcol-decoder/src/parse.rs:144-197 | the entries written for a chunk parse to the same entries |
| `FileLayout.PlaceChunk` | rust/wcol-encoder/src/format.rs:170-190 | the cursor visits data, null and empty-string pages of a chunk in order and records where each starts |
| `FileLayout.PlacePages` | rust/wcol-encoder/src/format.rs:170-190 | over all chunks the cursor ends behind the last byte of data |
| `FileLayout.TocLoop` | rust/wcol-encoder/src/format.rs:192-269 | the table of contents holds the running start of every index block |
| `FileLayout.WriteWcol` | rust/wcol-encoder/src/format.rs:13-94 | the bytes written are the sections of the layout in order and the pages hold their offsets; the errors are those of the schema, the dictionaries and the index size, and the last leaves a file with everything up to the dictionaries |
| `FileLayout.DictColumnsExactly` | rust/wcol-encoder/src/format.rs:117-121 | the dictionaries written are those of the columns whose flags have the second bit |
| `FileLayout.ShorterIsStored` | rust/wcol-encoder/src/format.rs:22-31 | what is stored of the dictionaries is the shorter of the section and its compressed form, flagged so, and the section itself when they are equally long |
| `FileReading.SetToc` | rust/wcol-decoder/src/ffi/runtime.rs:107-128 | the table of contents is read as one 64-bit offset for each chunk, or refused when too short |
| `FileReading.WriterSucceeds` | rust/wcol-encoder/src/format.rs:13-94 | the writer succeeds if and only if names and dictionary values fit their length fields and the index stays within its reserved size |
| `FileReading.HeaderFound` | rust/wcol-decoder/src/parse.rs:9-36 | the start of a written file parses as a header with the counts and section offsets of the layout |
| `FileReading.SchemaFound` | rust/wcol-decoder/src/parse.rs:38-79 | the header's schema span leads to the written columns |
| `FileReading.TocFound` | rust/wcol-decoder/src/ffi/runtime.rs:107-128 | the header's index offset leads to the written table of contents |
| `FileReading.SpanFound` | rust/wcol-decoder/src/ffi/runtime.rs:130-170 | for every chunk, the span computed from the table of contents selects exactly that chunk's index block |
| `FileReading.EntriesFound` | rust/wcol-decoder/src/parse.rs:144-197 | decompressed, that block parses to the entries of the chunk's pages |
| `FileReading.DictsFound` | rust/wcol-decoder/src/parse.rs:81-142 | the header's dictionary span, stored plain or compressed, leads to the written dictionary section |
| `FileReading.PageFound` | rust/wcol-encoder/src/format.rs:170-190 | the offset and length recorded for a page's data, nulls and empty-string marks select exactly their bytes in the file |
| `FileReading.PagesTile` | rust/wcol-encoder/src/format.rs:170-190 | the pages lie end to end from the start of the data area to the end of the file, without gap or overlap |
| `FileReading.EntryPoints` | rust/wcol-encoder/src/format.rs:192-261 | an index entry holds the recorded offsets, and each length if and only if it fits 32 bits |
| `FileReading.FileReadsBack` | rust/wcol-decoder/src/parse.rs:144-197 | from the bytes of a written file alone, the reader's way from the header over the table of contents and the index block leads to each page's bytes and to the lengths, counts, minimum, maximum and presence given for it, if block and page parts have lengths of 32 bits |
| `FileReading.NullPageAsked` | rust/wcol-decoder/src/ffi/materialize.rs:162-196 | the reader asks for a null page if and only if the column is nullable, there is one, its length is not 0 modulo 2^32, and it does not start at offset 2^32 - 1 |
| `FileReading.PayloadRoundTrip` | rust/wcol-encoder/src/encode/page.rs:53-58 | loading a stored payload gives it back if and only if it is empty or compresses to at least one byte |
| `Dictionaries.ColumnSpec.EnsureOtherDictBucket` | rust/wcol-encoder/src/scan.rs:652-664 | the overflow bucket is added once, at the end of the values |
| `Dictionaries.ColumnSpec.AddDictValue` | rust/wcol-encoder/src/scan.rs:666-695 | a value is added, found, put into the overflow bucket or ends the dictionary, as the cap and the column say |
| `Dictionaries.ColumnSpec.ScanColumn` | rust/wcol-encoder/src/scan.rs:315-331 | adding the values of a column one by one ends in the state the scan results are stated of |
| `Dictionaries.ScanResult` | rust/wcol-encoder/src/scan.rs:652-695 | after any scan, the dictionary is gone exactly when the distinct values exceed the cap of a small column; otherwise it holds the first distinct values in first-seen order, an exact index over them, and the overflow bucket exactly when values were left out |
| `Dictionaries.ScannedValueHasId` | rust/wcol-encoder/src/scan.rs:697-711 | a scanned value has an id that fits the chosen index width and names the value, or the overflow bucket past the cap |
| `Dictionaries.ReservedValueId` | rust/wcol-encoder/src/scan.rs:697-711 | the reserved value has an id if and only if the overflow bucket exists |
| `Dictionaries.WidthIsLeast` | rust/wcol-encoder/src/scan.rs:880-888 | ids have the least of one, two and four bytes that can hold the number of values |
| `DictSection.BuildDictsLoop` | rust/wcol-encoder/src/format.rs:117-168 | the dictionary section is built dictionary by dictionary as specified, or refused |
| `DictSection.LenWidthExactly` | rust/wcol-encoder/src/format.rs:117-168 | lengths have two bytes if and only if no value is longer than 65535 bytes, and four otherwise |
| `DictSection.ParseDictsLoop` | rust/wcol-decoder/src/parse.rs:81-142 | the parser's loops read dictionaries until the section ends, or refuse it |
| `DictSection.ParseLensLoop` | rust/wcol-decoder/src/parse.rs:199-219 | lengths of two or four bytes are read at a moving offset as specified, or refused when the section ends or their sum overflows |
| `DictSection.StringId` | rust/wcol-decoder/src/runtime.rs:160-183 | the scan returns the first id whose value is the string, or none if there is none |
| `DictSection.StoredValues` | rust/wcol-decoder/src/runtime.rs:150-157 | the id's offset and length select the value's bytes |
| `DictSection.IdsInvert` | rust/wcol-decoder/src/runtime.rs:150-183 | for distinct values, an id with the value of another id is that id, so finding a value's id inverts looking it up |
| `DictSection.FirstIdInverts` | rust/wcol-decoder/src/runtime.rs:160-183 | in a dictionary without repeats, a listed value is found under its place and no other value is found |
| `DictSection.DictFound` | rust/wcol-decoder/src/parse.rs:81-142 | one dictionary parses where it was written, whatever stands around it |
| `DictSection.DictsRoundTrip` | rust/wcol-decoder/src/parse.rs:81-142 | a built section parses to one dictionary for each id, with the values that were written |
| `DictSection.ScannedValueReadsBack` | rust/wcol-encoder/src/scan.rs:666-711 | from scan to bytes and back: after writing and parsing the section, the id given to a scanned value leads to that value, or to `__wcol_other__` past the cap, and searching for what it leads to finds the id |
| `BitPacked.BitOfNumber` | rust/wcol-decoder/src/decode/numeric.rs:51-74 | bit k of a byte string is bit k of the little-endian integer it spells |
| `BitPacked.DecodeOne` | rust/wcol-decoder/src/decode/numeric.rs:51-74 | collecting bits one by one gives the quotient by 2^start modulo 2^width |
| `BitPacked.DecodeIds` | rust/wcol-decoder/src/decode/numeric.rs:51-74 | for widths up to 32, id i is (integer / 2^(width i)) mod 2^width; decoding succeeds if and only if the buffer is long enough or the width is 0 |
| `BitPacked.PackIds` | rust/wcol-encoder/src/encode/page.rs:266-289 | setting bits one by one spells the integer with the ids as digits to base 2^width |
| `BitPacked.PackedField` | rust/wcol-decoder/src/decode/mod.rs:107-128 | field i of the packed integer is id i modulo 2^width |
| `BitPacked.UnpackPacked` | rust/wcol-decoder/src/decode/mod.rs:107-128 | field i of what was packed is id i if and only if the id is below 2^width |
| `BitPacked.WidthIsLeast` | rust/wcol-encoder/src/encode/page.rs:291-296 | a width has room for every id of a dictionary if and only if it is at least the chosen one |
| `BitPacked.Gather` | rust/wcol-decoder/src/decode/numeric.rs:94-98 | gathering succeeds if and only if every id has a dictionary word, and then each output is the word of its id |
| `BitPacked.DecodeBitPacked` | rust/wcol-decoder/src/decode/numeric.rs:39-49 | for widths up to 32, a page of the right type decodes if and only if every row's bit field has a dictionary word, and then to these words; a page of another type or without a layout is refused |
| `BitPacked.RoundTripPage` | rust/wcol-decoder/src/decode/numeric.rs:17-98 | a page encoded from a dictionary of at most 65535 words and ids into it decodes to the word of every row |
| `SubsliceSearch.FindIsFirst` | rust/wcol-decoder/src/decode/simd.rs:13-33 | the plain search returns the least match position, or none when there is no match |
| `SubsliceSearch.FirstIsFind` | rust/wcol-decoder/src/decode/simd.rs:13-33 | nothing else than the least match has that property |
| `SubsliceSearch.ClearLowest` | rust/wcol-decoder/src/decode/simd.rs:50-70 | clearing the lowest set bit of a mask leaves all other bits |
| `SubsliceSearch.MarksNext` | rust/wcol-decoder/src/decode/simd.rs:50-70 | walking a block mask visits exactly the positions of the first byte, in ascending order |
| `SubsliceSearch.SearchBlock` | rust/wcol-decoder/src/decode/simd.rs:50-70 | a block reports the least match of the whole haystack, that there is none, or that none starts in it or before it |
| `SubsliceSearch.MemchrSimd` | rust/wcol-decoder/src/decode/simd.rs:88-109 | the byte search returns what the plain search returns if and only if the haystack has 16 bytes, contains the byte, or no stray match follows it in memory |
| `SubsliceSearch.FindSubsliceSimd` | rust/wcol-decoder/src/decode/simd.rs:40-81 | for every needle and every haystack of at least 16 bytes the block search returns what the plain search returns; on shorter ones only one-byte needles can differ, under the condition of the byte search |
| `ReadCache.Shared.LookUp` | rust/wcol-decoder/src/native/cache.rs:93-115 | the first locked section returns a kept entry and counts a hit, or counts a miss |
| `ReadCache.Shared.Store` | rust/wcol-decoder/src/native/cache.rs:117-169 | the second locked section evicts from the front until the entry fits and keeps it, unless it is too large or another thread was faster |
| `ReadCache.Shared.ReadExact` | rust/wcol-decoder/src/native/cache.rs:93-169 | without interference, a read from a sound cache returns exactly the file's bytes, fails exactly outside the file or past 32-bit lengths, counts one hit or miss, and leaves the cache sound |
| `ReadCache.EvictedSound` | rust/wcol-decoder/src/native/cache.rs:117-169 | eviction keeps the order list, the map and the byte count in agreement and makes room for the new entry |
| `ReadCache.KeptSound` | rust/wcol-decoder/src/native/cache.rs:117-169 | keeping an entry preserves the agreement and the limit |
| `ReadCache.EvictsOldest` | rust/wcol-decoder/src/native/cache.rs:117-169 | entries are dropped oldest first, and only as many as it takes |
| `ReadCache.RunInv` | rust/wcol-decoder/src/native/cache.rs:93-169 | under every interleaving of any number of reads, the order lists the map's keys without repeats, used bytes are the sum of the entries and at most the limit, and every entry holds the file's bytes |
| `ReadCache.ReadsAreTransparent` | rust/wcol-decoder/src/native/cache.rs:93-169 | under every interleaving a finished read has the file's bytes |
| `ReadCache.ReadCompletes` | rust/wcol-decoder/src/native/cache.rs:93-169 | after any run a request for bytes of the file can be made, looked up, loaded and stored, ends with these bytes, is counted once, and is cached if it fits |
| `ReadCache.RequestsAddUp` | rust/wcol-decoder/src/native/cache.rs:93-169 | under every interleaving hits and misses count each non-empty request once, except those that failed or are still under way |
| `Calendar.MarchToMarch` | rust/wcol-decoder/src/sql_plan.rs:407-418 | the closed form gives a year 366 days if and only if it is a leap year |
| `Calendar.NextDayNumber` | rust/wcol-decoder/src/sql_plan.rs:407-418 | the next calendar day has the next number, across months, years and leap days |
| `Calendar.NumberCounts` | rust/wcol-decoder/src/sql_plan.rs:398-418 | the closed form of the n-th day from 1970-01-01, counted one by one in either direction, is n |
| `Calendar.NumberOrders` | rust/wcol-decoder/src/sql_plan.rs:398-418 | day numbers are ordered as dates are and tell valid dates apart |
| `Calendar.CountedReaches` | rust/wcol-decoder/src/sql_plan.rs:398-418 | every valid date is reached by counting its number of days |
| `Calendar.DateLiteral` | rust/wcol-decoder/src/sql_plan.rs:398-418 | a full-date as in section 5.6 of RFC 3339 is parsed to the number of days after which counting reaches its date, and to that of no other date |
| `Calendar.DayPastMonth` | rust/wcol-decoder/src/sql_plan.rs:398-418 | a day from 29 to 31 past the end of its month is parsed to a day of the next month |
| `Calendar.AcceptedLiterals` | rust/wcol-decoder/src/sql_plan.rs:398-418 | exactly which inputs are accepted: ten bytes with two dashes, a plus sign allowed in place of the first digit of each number and a minus sign in the year, a month to 12 and a day to 31 |
| `Calendar.SignsAreLoose` | rust/wcol-decoder/src/sql_plan.rs:398-418 | of the accepted inputs, exactly those without a sign have the form of a full-date |
| `Calendar.LooseLiterals` | rust/wcol-decoder/src/sql_plan.rs:398-418 | concrete literals that no calendar has and the code accepts |
| `SqlLexer.ScanPaired` | rust/wcol-sql-parser/src/lib.rs:266-279 | a literal whose quotes are doubled in pairs ends at its own closing quote |
| `SqlLexer.StringLiteral` | rust/wcol-sql-parser/src/lib.rs:266-279 | a closed literal keeps its text; an unterminated one loses its last byte, and stops the program if that byte ends a character of several bytes |
| `SqlPanic.BadToken` | rust/wcol-sql-parser/src/lib.rs:689-693 | a string token cannot be cut, and the program stops, if and only if it has two bytes or more and the last is inside a character of several bytes; then no quote closes it and it ends the input |
| `SqlPanic.PanicExactly` | rust/wcol-sql-parser/src/lib.rs:689-693 | for every input, parsing stops the program if and only if such a token is the last one and the input in front of it is refused, at its end, for want of an expression |
| `SqlPanic.NoPanic` | rust/wcol-sql-parser/src/lib.rs:810-812 | so no input stops the program whose last byte is ASCII or leads a character |
| `SqlPanic.LastByte` | rust/wcol-sql-parser/src/lib.rs:689-693 | in UTF-8 (section 3 of RFC 3629) the last byte is inside a character of several bytes if and only if it is not ASCII |
| `SqlPanic.UnclosedPanics` | rust/wcol-sql-parser/src/lib.rs:689-693 | the input `select 'é` does stop the program |
| `SqlTokens.KeywordExactly` | rust/wcol-sql-parser/src/lib.rs:338-393 | a text is a keyword if and only if it has the letters of that keyword's word in any case, and then it is that keyword |
| `SqlTokens.TokenLexes` | rust/wcol-sql-parser/src/lib.rs:221-325 | where a token is spelled and nothing behind it runs on, the lexer reads that token and stops there |
| `SqlTokens.TokenSpelled` | rust/wcol-sql-parser/src/lib.rs:221-325 | what the lexer reads is white space and then the spelling of a token, and nothing behind it runs on |
| `SqlTokens.TextRead` | rust/wcol-sql-parser/src/lib.rs:221-325 | a text that spells out tokens, in any case, with any white space and with none where tokens do not run together, is read as these tokens to its end |
| `SqlTokens.ReadWords` | rust/wcol-sql-parser/src/lib.rs:221-325 | a text that is read as tokens to its end spells them out |
| `SqlParser.ParseExprBp` | rust/wcol-sql-parser/src/lib.rs:625-647 | on every input the function ends with an expression, an error or a panic; an accepted expression is well formed and input was consumed |
| `SqlParser.ParsePrimary` | rust/wcol-sql-parser/src/lib.rs:649-717 | the same for primaries, calls, parentheses and literals, whose panic is one of the endings |
| `SqlParser.ParseAggregate` | rust/wcol-sql-parser/src/lib.rs:719-778 | the same for aggregates: a star only under COUNT, DISTINCT only under the two counting functions |
| `SqlParser.ParseAnd` | rust/wcol-sql-parser/src/lib.rs:550-558 | an accepted condition is an AND-tree of well-formed predicates |
| `SqlParser.ParseSql` | rust/wcol-sql-parser/src/lib.rs:810-812 | on every input parsing ends with a query, an error or a panic, and an accepted query is well formed |
| `SqlParserObject.Parser.NextToken` | rust/wcol-sql-parser/src/lib.rs:221-325 | the scanning loops return the token of the lexer function and stop where it does |
| `SqlParserObject.Parser.ParseExprBp` | rust/wcol-sql-parser/src/lib.rs:625-647 | the loop over operators agrees with the recursive function, in result and position |
| `SqlParserObject.Parser.ParsePrimary` | rust/wcol-sql-parser/src/lib.rs:649-717 | agrees with the function, in result, panic included, and position |
| `SqlParserObject.Parser.ParsePredicate` | rust/wcol-sql-parser/src/lib.rs:560-622 | agrees with the function, in result and position |
| `SqlParserObject.Parser.ParseSelectList` | rust/wcol-sql-parser/src/lib.rs:500-516 | the loop building the list agrees with the function, in result and position |
| `SqlParserObject.Parser.ParseOrderList` | rust/wcol-sql-parser/src/lib.rs:518-537 | the loop building the list agrees with the function, in result and position |
| `SqlParserObject.Parser.ParseQuery` | rust/wcol-sql-parser/src/lib.rs:434-498 | the clauses in their order agree with the function |
| `SqlParserObject.ParseSqlV0` | rust/wcol-sql-parser/src/lib.rs:810-812 | the program's entry point ends as the parser function does: with its query, its error or its panic |
| `SqlRoundTrip.TermParses` | rust/wcol-sql-parser/src/lib.rs:625-778 | an expression in any grammatical way of writing, with its parentheses, signs and leading zeros, is parsed to its meaning wherever no parenthesis follows |
| `SqlRoundTrip.ListParses` | rust/wcol-sql-parser/src/lib.rs:539-548 | a list of grammatical expressions is parsed to their meanings |
| `SqlClauses.FilterParses` | rust/wcol-sql-parser/src/lib.rs:550-622 | a condition of comparisons, LIKE, IN and their negations is parsed to the AND-tree of its tests from left to right |
| `SqlClauses.SelectParses` | rust/wcol-sql-parser/src/lib.rs:500-516 | a select list with aliases is parsed to its items |
| `SqlClauses.OrderParses` | rust/wcol-sql-parser/src/lib.rs:518-537 | an ORDER BY list with ASC, DESC or neither is parsed to its keys |
| `SqlForms.ExprWritten` | rust/wcol-sql-parser/src/lib.rs:625-778 | the tokens of an accepted expression are a grammatical way of writing what is returned |
| `SqlForms.FilterWritten` | rust/wcol-sql-parser/src/lib.rs:550-622 | the tokens of an accepted condition are tests joined by AND that mean what is returned |
| `SqlForms.SelectWritten` | rust/wcol-sql-parser/src/lib.rs:500-516 | the tokens of an accepted select list are items that mean what is returned |
| `SqlForms.OrderWritten` | rust/wcol-sql-parser/src/lib.rs:518-537 | the tokens of an accepted ORDER BY list are keys, with ASC, DESC or neither, that mean what is returned |
| `SqlQueryRoundTrip.WrittenIsParsed` | rust/wcol-sql-parser/src/lib.rs:434-498 | a text that writes a query in any form and layout is parsed to what the form means |
| `SqlQueryRoundTrip.ParsedIsWritten` | rust/wcol-sql-parser/src/lib.rs:434-498 | an accepted text writes what it is parsed to, in some form and layout of the grammar |
| `SqlQueryRoundTrip.ParsesExactly` | rust/wcol-sql-parser/src/lib.rs:810-812 | the parser returns a query exactly for the texts that write it, in any case and with any white space |
| `SqlPrint.PrintThenParse` | rust/wcol-sql-parser/src/lib.rs:810-812 | every well-formed query has a text that writes it, which is parsed to that query |
| `SqlPrint.ParseThenPrint` | rust/wcol-sql-parser/src/lib.rs:810-812 | what was parsed and keeps its quotes in pairs prints to a text that is parsed to the same query |
| `WhereLowering.CollectInto` | rust/wcol-decoder/src/sql_plan.rs:237-287 | pushing filters to an output while walking an AND-tree appends the tree's filters from left to right |
| `WhereLowering.BuildConjunction` | rust/wcol-decoder/src/sql_plan.rs:32-65 | the stack program for n filters is built as specified |
| `WhereLowering.ApplyWhere` | rust/wcol-decoder/src/sql_plan.rs:32-66 | converting, sorting, building and the last dictionary look-up, on a fresh plan, end with the specified plan or the first error in order |
| `WhereLowering.NothingPutOff` | rust/wcol-decoder/src/query/filter_literals.rs:5-58 | the last look-up changes no comparison or list that was made from a clause |
| `WhereLowering.SortIsStable` | rust/wcol-decoder/src/sql_plan.rs:32-65 | filters with the same sort key keep their order |
| `WhereLowering.SortAscends` | rust/wcol-decoder/src/sql_plan.rs:32-65 | sort keys ascend |
| `WhereLowering.EmptyTestsFirst` | rust/wcol-decoder/src/sql_plan.rs:32-65 | tests of string columns for not being empty come first, then those for being empty, then all others |
| `WhereLowering.SortedCounts` | rust/wcol-decoder/src/sql_plan.rs:32-65 | sorting loses and adds no filter |
| `WhereLowering.ConjunctionIsAnd` | rust/wcol-decoder/src/tests.rs:455-485 | the program never takes from an empty stack, leaves one mask, and that mask is the conjunction |
| `WhereLowering.PolishExecutes` | rust/wcol-decoder/src/tests.rs:455-485 | the program of any combination of filters by AND, OR and NOT puts that combination's value on the stack and leaves what is below alone |
| `WhereLowering.PlanIsConjunction` | rust/wcol-decoder/src/sql_plan.rs:32-65 | a lowered plan accepts a row if and only if every collected filter does |
| `WhereLowering.LiteralIs` | rust/wcol-decoder/src/sql_plan.rs:296-313 | the literals are integers, integers with a minus sign and strings, each with the value its arithmetic comes to, and nothing else |
| `WhereLowering.ConjunctLowers` | rust/wcol-decoder/src/sql_plan.rs:351-486 | a comparison or list of supported literals becomes one filter, which accepts the rows it is true of: integers by the value of their arithmetic, strings by the bytes under the row's dictionary id, dates by counted days |
| `WhereLowering.LoweringIsFaithful` | rust/wcol-decoder/src/sql_plan.rs:237-486 | for every AND-tree of such conjuncts the plan accepts exactly the rows the condition is true of |
| `WhereLowering.ComparisonLaws` | rust/wcol-decoder/src/query/compare.rs:4-39 | comparisons of numbers are those of reals, each denies its opposite, and none holds of what is no number |
| `WhereLowering.ExecutorCompares` | rust/wcol-decoder/src/query/filter.rs:618-638 | comparing blocks of doubles is what comparisons mean, and comparing them one at a time is the same if and only if it is not asked whether a number differs from what is none |
| `WhereLowering.AboveMinusFive` | rust/wcol-decoder/src/sql_plan.rs:296-313 | the plan of `x > -5` accepts the row in which x is 0 and rejects the one in which it is -5 |
| `WhereLowering.SidesAreOne` | rust/wcol-decoder/src/sql_plan.rs:243-254 | a literal gives the same plan on either side of a column |
| `WhereLowering.LeftLiteralExactly` | rust/wcol-decoder/src/sql_plan.rs:243-254 | the plan of a comparison with a literal on the left, an integer or on a plain column a text that spells a number or a day, accepts the rows the comparison is true of, for all rows, if and only if the operator is =, or it is <> and the literal is a number, or it is another and the literal is none |
| `WhereLowering.RightLiteralExactly` | rust/wcol-decoder/src/sql_plan.rs:243-254 | the plan of a comparison with such a literal on the right accepts the rows the comparison is true of, for all rows, unless it asks for being different from what is no number, and then it does not |
| `WhereLowering.FiveBelowX` | rust/wcol-decoder/src/sql_plan.rs:244-250 | the plan of `5 < x` rejects a row in which x is 7 and accepts one in which it is 3 |
| `WhereLowering.DroppedConjunct` | rust/wcol-decoder/src/sql_plan.rs:237-287 | a conjunct that leaves no filter leaves the plan, so the rows it accepts, as if it were not there, on either side of AND |
| `WhereLowering.ColumnsCompared` | rust/wcol-decoder/src/sql_plan.rs:243-257 | for every operator and all columns, comparing two columns makes a plan that accepts some row the comparison rejects |
| `WhereLowering.OneAndTwo` | rust/wcol-decoder/src/sql_plan.rs:237-287 | the plan of `x = 1 and x = y` accepts the row in which x is 1 and y is 2 |
| `WhereLowering.InRightExactly` | rust/wcol-decoder/src/sql_plan.rs:256-270 | whatever the other members evaluate to, the plan of a list is right for all rows if and only if the list has a literal and no row equals a dropped member without equalling a literal |
| `WhereLowering.ColumnsInList` | rust/wcol-decoder/src/sql_plan.rs:256-270 | the plan of a list of literals and columns accepts the rows the list is true of, for all rows, if and only if every member is a literal |
| `WhereLowering.OneOrY` | rust/wcol-decoder/src/sql_plan.rs:256-270 | the plan of `x in (1, y)` accepts a row in which x is 1 and rejects one in which x and y are both 2 |
| `WhereLowering.StringOperators` | rust/wcol-decoder/src/sql_plan.rs:351-396 | comparing a string column without repeated values with a string, whichever is on the left, is by their bytes, for all tables, strings and rows, if and only if the operator is = or <> |
| `WhereLowering.EqualityNeedsDistinct` | rust/wcol-decoder/src/runtime.rs:160-183 | looking strings up by their first id is right for every string and id if and only if no value of the dictionary is repeated |
| `LikePattern.SearchRightExactly` | rust/wcol-decoder/src/sql_plan.rs:488-510 | looking for a pattern without the percent signs at its ends inside a text is right for all texts if and only if the pattern starts and ends with a percent sign and has no other percent sign or underscore between them |
| `WhereLowering.PatternAccepts` | rust/wcol-decoder/src/sql_plan.rs:488-510 | the plan of LIKE accepts the rows whose text contains the trimmed pattern, and that of NOT LIKE the others |
| `WhereLowering.PatternsExactly` | rust/wcol-decoder/src/sql_plan.rs:488-510 | the plan of LIKE or NOT LIKE accepts the rows of a string column it is true of, for all tables and rows, if and only if the pattern is such a one; `p%`, `%p` and `p` are taken for `%p%` |
| `WhereLowering.MixedListLosesNumbers` | rust/wcol-decoder/src/sql_plan.rs:466-500 | the filter of a list keeps the list's numbers, all of them, if and only if no literal of it is put off as text; otherwise it keeps the texts alone |
| `WhereLowering.OneOrText` | rust/wcol-decoder/src/sql_plan.rs:466-500 | the plan of `x in (1, 'a')` rejects the row in which x is 1 |
| `WhereLowering.Refusals` | rust/wcol-decoder/src/sql_plan.rs:420-510 | lowering a single collected conjunct fails if and only if it is NOT IN or its column is unknown |
| `Materialize.GroupRowIdsByChunk` | src/runtime/exec/projection.ts:74-93 | one pass over the row ids gives every chunk its local rows and their slots, for any order and with repeats |
| `Materialize.SlotOnce` | src/runtime/exec/projection.ts:74-93 | every output slot belongs to the share of exactly one chunk, that of its row, and occurs there once |
| `Materialize.LocalInChunk` | rust/wcol-decoder/src/runtime.rs:95-102 | a row's position lies within the rows its chunk has if and only if the row exists, and chunk and position give the row back |
| `Materialize.GatherColumn` | rust/wcol-decoder/src/ffi/materialize.rs:81-160 | scattering writes the cell of each local row, or its null mark, to its slot and leaves all other slots alone |
| `Materialize.GatherChunk` | rust/wcol-decoder/src/ffi/materialize.rs:218-305 | after a chunk, its slots are filled and those filled before still are |
| `Materialize.Materialize` | src/runtime/exec/chunks.ts:262-289 | for every list of row ids, in any order and with repeats, and every order of chunks, each slot ends with the value or null of its row, or as initialised where the chunk was not loaded or has no such row |
| `ProjectionBlob.CopyRowProjection` | rust/wcol-decoder/src/ffi/materialize.rs:307-368 | a buffer that is too short, or no column, leaves the buffer alone with answer 0; otherwise its start becomes counts, descriptors and sections, the padding and the rest stay as they were, and the answer is the length |
| `ProjectionBlob.SectionReads` | src/runtime/exec/projection.ts:22-72 | the reader finds every value, of eight bytes, four or one by its kind, and every null mark of a column's section |
| `ProjectionBlob.ColumnReads` | src/runtime/exec/projection.ts:22-72 | the k-th descriptor and its section are read where the cursor arrives |
| `ProjectionBlob.BlobRoundTrip` | src/runtime/exec/projection.ts:22-72 | the blob reads back to the same columns, whatever fills the padding; a blob without columns is refused |

## Left out

- LZ4, CBOR, serde, xxh3, Arrow and Parquet readers, HTTP, files and workers themselves: parameters
  or abstract functions; of LZ4 only that decompression inverts compression, of a hash nothing.
- Undo history, presets and view-model contents: the application behind the engine is one function
  from state and event to state and effects, undo and redo events included.
- ViewModelPatch.TextsThatName: positions are unbounded; one beyond the machine word is refused
  either way, as no array is that long.
- ViewModelPatch.TsApplyPatches: plain JSON values only; keys such as `__proto__`, `undefined` and
  array indexing by strings are not modelled.
- EngineSync.RunPipeline: decoding errors of the wire format end a request like a thrown effect.
- ChunkScheduler.CompleteRun: without failures and without the early-limit stop of the local path.
- QueryRun.WorkerPlan.ExecuteTask: setting a limit fails only for a plan that does not exist, which
  is outside.
- QueryRun.ResultsReachTheirCallers: a link's ready and planned handshakes are one state; tasks are
  posted only on a planned link.
- QueryEnd.QuietEnd: what comes after the wait, a second attempt on the calling thread or the next
  query of the context, is not modelled together with the consumers that are left.
- `mapParallel` and the promise machinery beyond the steps between two awaits.
- RowCandidates.Plan.PushCandidate: the heap is a multiset whose root is a greatest element; the
  array order inside a binary heap is not modelled, and a serialised heap may list its elements in
  any order.
- RowOrder.BuildDictLexRanks: `sort_unstable` on keys that are all different is the one sorted
  order.
- RowCandidates.PageOfMergedHeaps: heaps whose keys fit their 32-bit length fields.
- RowOrder.RankComparesBytes: dictionaries of at most 2^32 values, as ids are 32-bit.
- SynthGroupBy.RunThreadLocalMerge: nothing is said beyond rows times workers = 2^64 - 1, where the
  ranges wrap in a release build; debug builds stop there, and reserved vector capacities are not
  modelled.
- HashGroupBy.GroupPhase.ProcessRow: the group phase for COUNT(*) over string keys; SUM, AVG, MIN,
  MAX, approximate counts, the packed keys of one or two numeric columns and the raw emit path are
  not modelled.
- FileReading.PagesTile: page payloads are given; choosing encodings, float scale and type widths is
  not modelled.
- FileRecords.HeaderRoundTrip: fields within their widths, which is what their types in the code
  say; that a count of columns or chunks may be cut to 32 bits on the way there is outside.
- FileLayout.WriteWcol: errors of the file system while writing.
- DictSection.DictsRoundTrip: dictionaries and their values number at most 2^32 - 1; UTF-8 validity
  of values is not checked by the parser modelled here.
- Dictionaries.ColumnSpec.ScanColumn: one string column; numeric dictionaries, scale detection and
  null statistics are not modelled.
- BitPacked.DecodeIds: values are stated for widths up to 32, the widest an id can have.
- BitPacked.DecodeBitPacked: dictionary words are unsigned; reading them as signed numbers is not
  modelled, nor are pages with byte-wide ids.
- SubsliceSearch.MemchrSimd: what the code reads past a short haystack is the memory that follows
  it, of which at least 16 bytes must exist.
- ReadCache.Shared.ReadExact: a poisoned lock, and byte counts beyond the machine word.
- SqlParser.ParseSql: a character is a byte of the input; the depth of recursion is not limited.
- SqlQueryRoundTrip.ParsesExactly: which texts are accepted and what they mean; which error a
  refused text gets, and where, is stated by the parser's functions and loops only.
- SqlPrint.ParseThenPrint: literals whose inner quotes are not doubled in pairs cannot be printed
  back, as the tree keeps raw text.
- WhereLowering.LoweringIsFaithful: comparisons of a column with a literal, IN lists of literals and
  LIKE patterns between percent signs, under AND. NOT IN is refused; NULL masks and comparisons with
  strings whose dictionary is not loaded are outside. The cast of an integer to a double and the
  double that a quoted number spells are parameters. A column's values are doubles; integer and
  scaled columns, for which the executor first casts the filter's number to their type, are outside.
- WhereLowering.ApplyWhere: filters that a plan had before, and the id sets prepared for LIKE.
- GroupKeys.BuildRepr: a string whose dictionary is not loaded, which is keyed by its id or its
  hash.
- SELECT, GROUP BY, HAVING and LIMIT lowering, aggregate planning and query execution other than the
  phases above.
- Materialize.Materialize: a cell is the bit pattern of its kind or null; the three column kinds
  move theirs the same way.
- Materialize.GatherColumn: a cell is the bit pattern of its kind, as above.
- SubsliceSearch.FindSubsliceSimd: the vector instructions are their meaning on 16 bytes.
- Environment variables, timing counters, wasm pointers and handles, the explorer's user interface
  and the comparison with another database.
