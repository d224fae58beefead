/** A parallel query. */
module QueryRun {
  import opened Wrappers
  import opened ChunkScheduler

  // Workers that run chunk tasks on a reused plan, the routing of task results to the promises that wait
  // for them, and the reduction of the partials in chunk order.

  type Bytes = seq<int>

  // ---------- one task on a worker's plan ----------

  /** What the decoder does with a plan; `R` is the plan's result state. */
  datatype Decoder<!R, !Payload> = Decoder(
    reset: R,
    exec: (PlanConfig, R, Payload) -> R,
    finalize: (PlanConfig, R) -> R,
    readRows: (PlanConfig, R) -> Bytes,
    readCandidates: (PlanConfig, R) -> Bytes,
    readAggs: (PlanConfig, R) -> Bytes,
    readGroups: (PlanConfig, R) -> Bytes)

  type U32 = n: nat | n < 0x1_0000_0000

  /** What the plan is set to. */
  datatype PlanConfig = PlanConfig(groupKeys: nat, rowOrder: nat, limit: U32)

  datatype Partial = Partial(chunk: ChunkId, rows: Bytes, aggs: Bytes, groups: Bytes, candidates: Option<Bytes>)

  /** The limit as the host reads it: as a signed number of 32 bits. */
  function PlanLimit(limit: U32): int {
    if limit < 0x8000_0000 then limit else limit - 0x1_0000_0000
  }

  /** A grouped plan without ORDER BY hands over all its groups, not only the first `limit`. */
  predicate LimitOff(config: PlanConfig) {
    config.groupKeys > 0 && config.rowOrder == 0 && PlanLimit(config.limit) > 0
  }

  function Unlimited(config: PlanConfig): PlanConfig {
    config.(limit := 0)
  }

  /** The partial of a chunk, from the plan's configuration and the chunk alone. */
  function TaskResult<R, Payload>(
      d: Decoder<R, Payload>, config: PlanConfig, chunk: ChunkId, payload: Payload): Partial {
    var ran := d.exec(config, d.reset, payload);
    var reading := if LimitOff(config) then Unlimited(config) else config;
    var done := if config.rowOrder == 0 then d.finalize(reading, ran) else ran;
    var candidates := if config.rowOrder > 0 then d.readCandidates(reading, done) else [];
    Partial(chunk,
      if config.rowOrder == 0 then d.readRows(reading, done) else [],
      d.readAggs(reading, done), d.readGroups(reading, done),
      if candidates != [] then Some(candidates) else None)
  }

  /** The calls of a task that may fail. */
  datatype Call = Exec | Finalize | ReadRows | ReadCandidates | ReadAggs | ReadGroups

  /** The first call of a task that fails, in the order in which it makes them. */
  function FirstFailure(config: PlanConfig, failing: set<Call>): Option<Call> {
    if Exec in failing then Some(Exec)
    else if config.rowOrder == 0 && Finalize in failing then Some(Finalize)
    else if config.rowOrder == 0 && ReadRows in failing then Some(ReadRows)
    else if config.rowOrder > 0 && ReadCandidates in failing then Some(ReadCandidates)
    else if ReadAggs in failing then Some(ReadAggs)
    else if ReadGroups in failing then Some(ReadGroups)
    else None
  }

  /** A call of the task failed after the limit was taken off. */
  predicate FailsBetween(config: PlanConfig, failing: set<Call>) {
    var failed := FirstFailure(config, failing);
    LimitOff(config) && failed.Some? && failed.value != Exec
  }

  function EmptyPartial(chunk: ChunkId): Partial {
    Partial(chunk, [], [], [], None)
  }

  /** A plan as a worker keeps it between tasks. */
  class WorkerPlan<R, Payload> {
    const decoder: Decoder<R, Payload>
    const groupKeys: nat
    const rowOrder: nat
    var limit: U32
    var results: R

    function Config(): PlanConfig
      reads this`limit
    {
      PlanConfig(groupKeys, rowOrder, limit)
    }

    constructor (decoder: Decoder<R, Payload>, config: PlanConfig)
      ensures this.decoder == decoder && Config() == config
    {
      this.decoder := decoder;
      groupKeys, rowOrder, limit, results := config.groupKeys, config.rowOrder, config.limit, decoder.reset;
    }

    /**
     The partial does not depend on what the plan did before. The plan keeps its limit exactly when no call failed
     while the limit was off.
     */
    method ExecuteTask(chunk: ChunkId, payload: Payload, failing: set<Call>) returns (r: Result<Partial, Call>)
      modifies this
      ensures
        var failed := FirstFailure(old(Config()), failing);
        r == if failed.Some? then Err(failed.value) else Ok(TaskResult(decoder, old(Config()), chunk, payload))
      ensures Config() == if FailsBetween(old(Config()), failing) then Unlimited(old(Config())) else old(Config())
    {
      results := decoder.reset;
      if Exec in failing { return Err(Exec); }
      results := decoder.exec(Config(), results, payload);
      var planLimit := PlanLimit(limit);
      var disableGroupLimit := groupKeys > 0 && rowOrder == 0 && planLimit > 0;
      if disableGroupLimit { limit := 0; }
      var rows, candidates: Bytes := [], [];
      if rowOrder == 0 {
        if Finalize in failing { return Err(Finalize); }
        results := decoder.finalize(Config(), results);
        if ReadRows in failing { return Err(ReadRows); }
        rows := decoder.readRows(Config(), results);
      } else {
        if ReadCandidates in failing { return Err(ReadCandidates); }
        candidates := decoder.readCandidates(Config(), results);
      }
      if ReadAggs in failing { return Err(ReadAggs); }
      var aggs := decoder.readAggs(Config(), results);
      if ReadGroups in failing { return Err(ReadGroups); }
      var groups := decoder.readGroups(Config(), results);
      if disableGroupLimit { limit := planLimit; }
      return Ok(Partial(chunk, rows, aggs, groups, if candidates != [] then Some(candidates) else None));
    }
  }

  /** The limit is off for grouped plans without ORDER BY whose limit is above 0 and below 2^31. */
  lemma LimitOffExactly(config: PlanConfig)
    ensures LimitOff(config) <==> config.groupKeys > 0 && config.rowOrder == 0 && 0 < config.limit < 0x8000_0000
    ensures LimitOff(config) ==> PlanLimit(config.limit) == config.limit
  {
  }

  /** What tasks, each with its own set of failing calls, make of a plan. */
  function ConfigAfter(config: PlanConfig, tasks: seq<set<Call>>): PlanConfig
    decreases |tasks|
  {
    if tasks == [] then config
    else
      var before := ConfigAfter(config, tasks[..|tasks| - 1]);
      if FailsBetween(before, tasks[|tasks| - 1]) then Unlimited(before) else before
  }

  /**
   Over any tasks a worker runs on its plan, the plan is ready for the next one exactly when no task failed while the
   limit was off. Otherwise the limit is gone for good.
   */
  lemma {:induction false} ReadyAfter(config: PlanConfig, tasks: seq<set<Call>>)
    ensures ConfigAfter(config, tasks) == config <==> forall i :: 0 <= i < |tasks| ==> !FailsBetween(config, tasks[i])
    ensures ConfigAfter(config, tasks) == config || ConfigAfter(config, tasks) == Unlimited(config)
    decreases |tasks|
  {
    hide FirstFailure;
    if tasks == [] {
    } else {
      ReadyAfter(config, tasks[..|tasks| - 1]);
      assert tasks == tasks[..|tasks| - 1] + [tasks[|tasks| - 1]];
    }
  }

  // ---------- the reduction ----------

  /** What merging a buffer of each kind does to the reducer. */
  datatype Merger<!R> = Merger(
    rows: (R, Bytes) -> R, candidates: (R, Bytes) -> R, aggs: (R, Bytes) -> R, groups: (R, Bytes) -> R)

  function MergeBuffer<R>(acc: R, buf: Bytes, merge: (R, Bytes) -> R): R {
    if buf == [] then acc else merge(acc, buf)
  }

  function MergePartial<R>(m: Merger<R>, acc: R, p: Partial): R {
    var r1 := MergeBuffer(acc, p.rows, m.rows);
    var r2 := if p.candidates.Some? then MergeBuffer(r1, p.candidates.value, m.candidates) else r1;
    var r3 := MergeBuffer(r2, p.aggs, m.aggs);
    MergeBuffer(r3, p.groups, m.groups)
  }

  /** The fold of the partials of chunks 0 to `n - 1` in chunk order. */
  function FoldChunks<R>(m: Merger<R>, start: R, n: nat, exec: ChunkId -> Partial): R {
    if n == 0 then start else MergePartial(m, FoldChunks(m, start, n - 1, exec), exec(n - 1))
  }

  /** What a chunk yields: a pruned chunk has no payload and gives an empty partial. */
  function ChunkPartial<R, Payload>(d: Decoder<R, Payload>, config: PlanConfig, payload: ChunkId -> Option<Payload>)
    : ChunkId -> Partial
  {
    (k: ChunkId) =>
      if payload(k).Some? then TaskResult(d, config, k, payload(k).value) else EmptyPartial(k)
  }

  /** The reduction of whatever partials a run stored; chunks without one are passed over. */
  function Reduced<R>(m: Merger<R>, start: R, n: nat, partials: map<ChunkId, Partial>): R {
    if n == 0 then start
    else
      var acc := Reduced(m, start, n - 1, partials);
      if n - 1 in partials then MergePartial(m, acc, partials[n - 1]) else acc
  }

  /** The reduction loop over the partials array, which a failed run may leave with holes. */
  method ReducePartials<R>(m: Merger<R>, start: R, nchunks: nat, partials: map<ChunkId, Partial>) returns (reducer: R)
    ensures reducer == Reduced(m, start, nchunks, partials)
  {
    reducer := start;
    for k := 0 to nchunks
      invariant reducer == Reduced(m, start, k, partials)
    {
      if k in partials {
        var p := partials[k];
        reducer := MergeBuffer(reducer, p.rows, m.rows);
        if p.candidates.Some? { reducer := MergeBuffer(reducer, p.candidates.value, m.candidates); }
        reducer := MergeBuffer(reducer, p.aggs, m.aggs);
        reducer := MergeBuffer(reducer, p.groups, m.groups);
      }
    }
  }

  lemma {:induction false} ReducedComplete<R>(m: Merger<R>, start: R, n: nat, total: nat, exec: ChunkId -> Partial)
    requires n <= total
    ensures Reduced(m, start, n, AllResults(total, exec)) == FoldChunks(m, start, n, exec)
  {
    if n == 0 {
    } else {
      ReducedComplete(m, start, n - 1, total, exec);
    }
  }

  /** The query's answer is the fold in chunk order, for every worker count and every schedule. */
  lemma ResultIsChunkOrderFold<R, Payload>(
      m: Merger<R>, start: R, d: Decoder<R, Payload>, config: PlanConfig, payload: ChunkId -> Option<Payload>,
      nchunks: nat, workers: nat, steps: seq<Step>)
    requires 0 < workers && Smooth(steps)
    requires Run(Initial(nchunks, PrefetchCap(workers), workers), steps, ChunkPartial(d, config, payload)).Some?
    requires
      var s := Run(Initial(nchunks, PrefetchCap(workers), workers), steps, ChunkPartial(d, config, payload)).value;
      forall i :: 0 <= i < |s.consumers| ==> Finished(s.consumers[i])
    ensures
      var exec := ChunkPartial(d, config, payload);
      var s := Run(Initial(nchunks, PrefetchCap(workers), workers), steps, exec).value;
      Reduced(m, start, nchunks, s.partials) == FoldChunks(m, start, nchunks, exec)
  {
    var exec := ChunkPartial(d, config, payload);
    PrefetchCapSuffices(workers);
    CompleteRun(nchunks, PrefetchCap(workers), workers, steps, exec);
    ReducedComplete(m, start, nchunks, nchunks, exec);
  }

  // ---------- which buffers are merged ----------

  datatype BufferKind = RowBuffer | CandidateBuffer | AggBuffer | GroupBuffer

  /** One merge: of a buffer, as rows, as candidates, as aggregates or as groups. */
  datatype Merge = Merge(kind: BufferKind, buf: Bytes)

  function KindAt(i: nat): BufferKind {
    if i % 4 == 0 then RowBuffer else if i % 4 == 1 then CandidateBuffer else if i % 4 == 2 then AggBuffer
    else GroupBuffer
  }

  /** The buffer of a kind in a partial; none is the same as an empty one. */
  function BufferOf(p: Partial, kind: BufferKind): Bytes {
    match kind
    case RowBuffer => p.rows
    case CandidateBuffer => if p.candidates == None then [] else p.candidates.value
    case AggBuffer => p.aggs
    case GroupBuffer => p.groups
  }

  /** The four buffers of each chunk, chunk after chunk; a chunk without a partial has empty ones. */
  function BufferAt(partials: map<ChunkId, Partial>, i: nat): Merge {
    Merge(KindAt(i), if i / 4 in partials then BufferOf(partials[i / 4], KindAt(i)) else [])
  }

  /**
   The merges are those of the first `n` buffers that are not empty, each once and in order: the i-th is at `at[i]`.
   */
  ghost predicate MergesOf(merges: seq<Merge>, at: seq<nat>, partials: map<ChunkId, Partial>, n: nat) {
    && |at| == |merges|
    && (forall i :: 0 <= i < |at| ==> at[i] < n && merges[i] == BufferAt(partials, at[i]) && merges[i].buf != [])
    && (forall i, j :: 0 <= i < j < |at| ==> at[i] < at[j])
    && (forall k :: 0 <= k < n && BufferAt(partials, k).buf != [] ==> k in at)
  }

  /** A reducer that only writes down what it is asked to merge. */
  function Recorder(): Merger<seq<Merge>> {
    Merger((log, buf) => log + [Merge(RowBuffer, buf)], (log, buf) => log + [Merge(CandidateBuffer, buf)],
      (log, buf) => log + [Merge(AggBuffer, buf)], (log, buf) => log + [Merge(GroupBuffer, buf)])
  }

  /** Merges done one after the other. */
  function Applied<R>(m: Merger<R>, start: R, merges: seq<Merge>): R {
    if merges == [] then start
    else
      var acc, last := Applied(m, start, merges[..|merges| - 1]), merges[|merges| - 1];
      match last.kind
      case RowBuffer => m.rows(acc, last.buf)
      case CandidateBuffer => m.candidates(acc, last.buf)
      case AggBuffer => m.aggs(acc, last.buf)
      case GroupBuffer => m.groups(acc, last.buf)
  }

  /** What the recorder has after one more buffer. */
  function Recorded(log: seq<Merge>, next: Merge): seq<Merge> {
    if next.buf == [] then log else log + [next]
  }

  lemma OneMoreBuffer(log: seq<Merge>, at: seq<nat>, partials: map<ChunkId, Partial>, n: nat) returns (at': seq<nat>)
    requires MergesOf(log, at, partials, n)
    ensures MergesOf(Recorded(log, BufferAt(partials, n)), at', partials, n + 1)
  {
    hide BufferAt;
    at' := if BufferAt(partials, n).buf == [] then at else at + [n];
  }

  /** A partial is its four buffers. */
  lemma FourBuffers(log: seq<Merge>, partials: map<ChunkId, Partial>, n: nat)
    ensures
      var l1 := Recorded(log, BufferAt(partials, 4 * n));
      var l2 := Recorded(l1, BufferAt(partials, 4 * n + 1));
      var l3 := Recorded(l2, BufferAt(partials, 4 * n + 2));
      Recorded(l3, BufferAt(partials, 4 * n + 3))
        == if n in partials then MergePartial(Recorder(), log, partials[n]) else log
  {
  }

  /**
   What is merged after any run, whatever chunks have no partial: the buffers that are not empty, chunk after chunk and
   in the order rows, candidates, aggregates, groups, each as what it is.
   */
  lemma {:induction false} BuffersMerged(n: nat, partials: map<ChunkId, Partial>) returns (at: seq<nat>)
    ensures MergesOf(Reduced(Recorder(), [], n, partials), at, partials, 4 * n)
  {
    hide BufferAt, MergesOf, Recorded, MergePartial, Recorder;
    if n == 0 {
      at := [];
      NothingMerged(partials);
    } else {
      at := BuffersMerged(n - 1, partials);
      var log, lo := Reduced(Recorder(), [], n - 1, partials), 4 * (n - 1);
      FourBuffers(log, partials, n - 1);
      at := OneMoreBuffer(log, at, partials, lo);
      log := Recorded(log, BufferAt(partials, lo));
      at := OneMoreBuffer(log, at, partials, lo + 1);
      log := Recorded(log, BufferAt(partials, lo + 1));
      at := OneMoreBuffer(log, at, partials, lo + 2);
      log := Recorded(log, BufferAt(partials, lo + 2));
      at := OneMoreBuffer(log, at, partials, lo + 3);
    }
  }

  lemma NothingMerged(partials: map<ChunkId, Partial>)
    ensures MergesOf([], [], partials, 0)
  {
  }

  lemma AppliedMore<R>(m: Merger<R>, start: R, log: seq<Merge>, next: Merge)
    ensures Applied(m, start, log + [next]) ==
      var acc := Applied(m, start, log);
      match next.kind
      case RowBuffer => m.rows(acc, next.buf)
      case CandidateBuffer => m.candidates(acc, next.buf)
      case AggBuffer => m.aggs(acc, next.buf)
      case GroupBuffer => m.groups(acc, next.buf)
  {
    assert (log + [next])[..|log|] == log;
  }

  /** Merging a partial is applying what the recorder writes down for it. */
  lemma PartialApplied<R>(m: Merger<R>, start: R, log: seq<Merge>, p: Partial)
    ensures MergePartial(m, Applied(m, start, log), p) == Applied(m, start, MergePartial(Recorder(), log, p))
  {
    hide Applied;
    AppliedMore(m, start, log, Merge(RowBuffer, p.rows));
    var l1 := MergeBuffer(log, p.rows, Recorder().rows);
    if p.candidates.Some? { AppliedMore(m, start, l1, Merge(CandidateBuffer, p.candidates.value)); }
    var l2 := if p.candidates.Some? then MergeBuffer(l1, p.candidates.value, Recorder().candidates) else l1;
    AppliedMore(m, start, l2, Merge(AggBuffer, p.aggs));
    var l3 := MergeBuffer(l2, p.aggs, Recorder().aggs);
    AppliedMore(m, start, l3, Merge(GroupBuffer, p.groups));
  }

  /** Every reducer ends with the recorded merges done one after the other. */
  lemma {:induction false} ReducerApplies<R>(m: Merger<R>, start: R, n: nat, partials: map<ChunkId, Partial>)
    ensures Reduced(m, start, n, partials) == Applied(m, start, Reduced(Recorder(), [], n, partials))
  {
    hide MergePartial, Recorder;
    if n == 0 {
    } else {
      ReducerApplies(m, start, n - 1, partials);
      if n - 1 in partials {
        PartialApplied(m, start, Reduced(Recorder(), [], n - 1, partials), partials[n - 1]);
      }
    }
  }

  /**
   The query's answer, for every worker count and every schedule: what the reducer makes of the buffers that are not
   empty, merged chunk after chunk and in the order rows, candidates, aggregates, groups.
   */
  lemma ResultOfQuery<R, Payload>(
      m: Merger<R>, start: R, d: Decoder<R, Payload>, config: PlanConfig, payload: ChunkId -> Option<Payload>,
      nchunks: nat, workers: nat, steps: seq<Step>)
    returns (merges: seq<Merge>, at: seq<nat>)
    requires 0 < workers && Smooth(steps)
    requires Run(Initial(nchunks, PrefetchCap(workers), workers), steps, ChunkPartial(d, config, payload)).Some?
    requires
      var s := Run(Initial(nchunks, PrefetchCap(workers), workers), steps, ChunkPartial(d, config, payload)).value;
      forall i :: 0 <= i < |s.consumers| ==> Finished(s.consumers[i])
    ensures
      var exec := ChunkPartial(d, config, payload);
      var s := Run(Initial(nchunks, PrefetchCap(workers), workers), steps, exec).value;
      && Reduced(m, start, nchunks, s.partials) == Applied(m, start, merges)
      && MergesOf(merges, at, AllResults(nchunks, exec), 4 * nchunks)
  {
    hide Applied, MergesOf, Recorder, Reduced;
    var exec := ChunkPartial(d, config, payload);
    PrefetchCapSuffices(workers);
    CompleteRun(nchunks, PrefetchCap(workers), workers, steps, exec);
    merges := Reduced(Recorder(), [], nchunks, AllResults(nchunks, exec));
    ReducerApplies(m, start, nchunks, AllResults(nchunks, exec));
    at := BuffersMerged(nchunks, AllResults(nchunks, exec));
  }

  // ---------- task results reach the promise that waits for them ----------

  datatype Settled<T> = Resolved(value: T) | Rejected

  /**
   One worker handle and its worker: `posted` is every task ever posted, by id; `atWorker` the ids
   the worker still has; `replies` the messages on their way back, with or without a result.
   */
  datatype Link<P, T> = Link(
    nextTaskId: nat,
    posted: map<nat, P>,
    pending: set<nat>,
    atWorker: set<nat>,
    replies: seq<(nat, Option<T>)>,
    settled: map<nat, Settled<T>>)

  datatype LinkStep<P> =
    | Post(task: P)            // runTask
    | Work(id: nat, ok: bool)  // the worker answers some task it has, in any order
    | Receive                  // the oldest reply arrives
    | Fail                     // an error message, a worker error or a close

  function LinkInitial<P, T>(): Link<P, T> {
    Link(1, map[], {}, {}, [], map[])
  }

  function LinkNext<P, T>(s: Link<P, T>, step: LinkStep<P>, work: P -> T): Option<Link<P, T>> {
    match step
    case Post(task) =>
      var id := s.nextTaskId;
      Some(s.(nextTaskId := id + 1, posted := s.posted[id := task], pending := s.pending + {id},
        atWorker := s.atWorker + {id}))
    case Work(id, ok) =>
      if id in s.atWorker && id in s.posted
      then Some(s.(atWorker := s.atWorker - {id},
                   replies := s.replies + [(id, if ok then Some(work(s.posted[id])) else None)]))
      else None
    case Receive =>
      if s.replies == [] then None
      else
        var (id, result) := s.replies[0];
        if id !in s.pending then Some(s.(replies := s.replies[1..]))
        else Some(s.(replies := s.replies[1..], pending := s.pending - {id},
                     settled := s.settled[id := if result.Some? then Resolved(result.value) else Rejected]))
    case Fail =>
      Some(s.(pending := {}, settled := s.settled + map id | id in s.pending :: Rejected))
  }

  function LinkRun<P, T>(s: Link<P, T>, steps: seq<LinkStep<P>>, work: P -> T): Option<Link<P, T>>
    decreases |steps|
  {
    if steps == [] then Some(s)
    else
      match LinkNext(s, steps[0], work)
      case None => None
      case Some(s') => LinkRun(s', steps[1..], work)
  }

  ghost predicate LinkInv<P, T>(s: Link<P, T>, work: P -> T) {
    && (forall id :: id in s.posted <==> 1 <= id < s.nextTaskId)
    && s.nextTaskId >= 1
    && s.atWorker <= s.posted.Keys
    && s.pending + s.settled.Keys == s.posted.Keys && s.pending !! s.settled.Keys
    && (forall i :: 0 <= i < |s.replies| ==>
          s.replies[i].0 in s.posted && (s.replies[i].1.Some?
            ==> s.replies[i].1.value == work(s.posted[s.replies[i].0])))
    && (forall id :: id in s.settled && s.settled[id].Resolved? ==> s.settled[id].value == work(s.posted[id]))
  }

  /** A settled promise stays as it is, and a resolved one holds the result of its own task. */
  lemma LinkStepKeeps<P, T>(s: Link<P, T>, step: LinkStep<P>, work: P -> T)
    requires LinkInv(s, work) && LinkNext(s, step, work).Some?
    ensures
      var s' := LinkNext(s, step, work).value;
      && LinkInv(s', work)
      && (forall id :: id in s.settled ==> id in s'.settled && s'.settled[id] == s.settled[id])
      && (forall id :: id in s.posted ==> id in s'.posted && s'.posted[id] == s.posted[id])
  {
  }

  lemma {:induction false} LinkRunKeeps<P, T>(s: Link<P, T>, steps: seq<LinkStep<P>>, work: P -> T)
    requires LinkInv(s, work) && LinkRun(s, steps, work).Some?
    ensures LinkInv(LinkRun(s, steps, work).value, work)
    ensures forall id :: id in s.settled ==>
      id in LinkRun(s, steps, work).value.settled && LinkRun(s, steps, work).value.settled[id] == s.settled[id]
    decreases |steps|
  {
    hide LinkInv;
    if steps == [] {
    } else {
      LinkStepKeeps(s, steps[0], work);
      LinkRunKeeps(LinkNext(s, steps[0], work).value, steps[1..], work);
    }
  }

  /**
   For every interleaving of posting, answering in any order, receiving and failing: a promise that
   resolved holds the result of the task it was posted for, every posted task is pending or settled
   and not both, and what is settled never changes.
   */
  lemma ResultsReachTheirCallers<P, T>(steps: seq<LinkStep<P>>, more: seq<LinkStep<P>>, work: P -> T)
    requires LinkRun(LinkInitial(), steps, work).Some?
    requires LinkRun(LinkRun(LinkInitial(), steps, work).value, more, work).Some?
    ensures
      var s := LinkRun(LinkInitial(), steps, work).value;
      var later := LinkRun(s, more, work).value;
      && (forall id :: id in s.settled && s.settled[id].Resolved? ==>
            id in s.posted && s.settled[id].value == work(s.posted[id]))
      && s.pending + s.settled.Keys == s.posted.Keys && s.pending !! s.settled.Keys
      && (forall id :: id in s.settled ==> id in later.settled && later.settled[id] == s.settled[id])
  {
    LinkRunKeeps(LinkInitial(), steps, work);
    LinkRunKeeps(LinkRun(LinkInitial(), steps, work).value, more, work);
  }

  // ---------- every pending task can be answered ----------

  ghost predicate OnItsWay<T>(replies: seq<(nat, Option<T>)>, id: nat) {
    exists i :: 0 <= i < |replies| && replies[i].0 == id
  }

  /** A task is at the worker or its reply is on its way, not both, and a pending one is somewhere. */
  ghost predicate Underway<P, T>(s: Link<P, T>) {
    && (forall id :: id in s.atWorker ==> id in s.posted && id < s.nextTaskId && !OnItsWay(s.replies, id))
    && (forall i :: 0 <= i < |s.replies| ==> s.replies[i].0 < s.nextTaskId)
    && (forall i, j :: 0 <= i < j < |s.replies| ==> s.replies[i].0 != s.replies[j].0)
    && (forall id :: id in s.pending ==> id in s.atWorker || OnItsWay(s.replies, id))
  }

  lemma OneMoreReply<T>(replies: seq<(nat, Option<T>)>, reply: (nat, Option<T>), id: nat)
    ensures OnItsWay(replies + [reply], id) <==> OnItsWay(replies, id) || id == reply.0
  {
    var more := replies + [reply];
    if i :| 0 <= i < |replies| && replies[i].0 == id { assert more[i].0 == id; }
    assert more[|replies|] == reply;
  }

  lemma OneReplyLess<T>(replies: seq<(nat, Option<T>)>, id: nat)
    requires replies != []
    ensures OnItsWay(replies, id) <==> OnItsWay(replies[1..], id) || id == replies[0].0
  {
    if i :| 0 <= i < |replies| && replies[i].0 == id { if i > 0 { assert replies[1..][i - 1].0 == id; } }
    if i :| 0 <= i < |replies[1..]| && replies[1..][i].0 == id { assert replies[i + 1].0 == id; }
  }

  lemma StaysUnderway<P, T>(s: Link<P, T>, step: LinkStep<P>, work: P -> T)
    requires Underway(s) && LinkNext(s, step, work).Some?
    ensures Underway(LinkNext(s, step, work).value)
  {
    match step
    case Post(task) =>
      if OnItsWay(s.replies, s.nextTaskId) { assert false; }
      hide OnItsWay;
    case Work(id, ok) => WorkUnderway(s, id, ok, work);
    case Receive => ReceiveUnderway(s, work);
    case Fail => hide OnItsWay;
  }

  lemma WorkUnderway<P, T>(s: Link<P, T>, id: nat, ok: bool, work: P -> T)
    requires Underway(s) && LinkNext(s, Work(id, ok), work).Some?
    ensures Underway(LinkNext(s, Work(id, ok), work).value)
  {
    var reply := (id, if ok then Some(work(s.posted[id])) else None);
    forall other ensures OnItsWay(s.replies + [reply], other) <==> OnItsWay(s.replies, other) || other == id {
      OneMoreReply(s.replies, reply, other);
    }
    forall i | 0 <= i < |s.replies| ensures s.replies[i].0 != id { assert !OnItsWay(s.replies, id); }
    hide OnItsWay;
  }

  lemma ReceiveUnderway<P, T>(s: Link<P, T>, work: P -> T)
    requires Underway(s) && LinkNext(s, Receive, work).Some?
    ensures Underway(LinkNext(s, Receive, work).value)
  {
    forall other ensures OnItsWay(s.replies, other) <==> OnItsWay(s.replies[1..], other) || other == s.replies[0].0 {
      OneReplyLess(s.replies, other);
    }
    hide OnItsWay;
  }

  lemma {:induction false} RunUnderway<P, T>(s: Link<P, T>, steps: seq<LinkStep<P>>, work: P -> T)
    requires Underway(s) && LinkRun(s, steps, work).Some?
    ensures Underway(LinkRun(s, steps, work).value)
    decreases |steps|
  {
    hide Underway, LinkNext;
    if steps == [] {
    } else {
      StaysUnderway(s, steps[0], work);
      RunUnderway(LinkNext(s, steps[0], work).value, steps[1..], work);
    }
  }

  function Receives<P>(n: nat): seq<LinkStep<P>> {
    if n == 0 then [] else [Receive] + Receives(n - 1)
  }

  /** Receiving up to a pending task's reply settles the task with what the reply carries. */
  lemma {:induction false} ReceivesSettle<P, T>(s: Link<P, T>, i: nat, work: P -> T)
    requires i < |s.replies| && s.replies[i].0 in s.pending
    requires forall j :: 0 <= j < i ==> s.replies[j].0 != s.replies[i].0
    ensures
      var end := LinkRun(s, Receives(i + 1), work);
      && end.Some? && s.replies[i].0 in end.value.settled
      && end.value.settled[s.replies[i].0]
           == if s.replies[i].1.Some? then Resolved(s.replies[i].1.value) else Rejected
    decreases i
  {
    var steps: seq<LinkStep<P>> := Receives(i + 1);
    assert steps[0] == Receive && steps[1..] == Receives<P>(i);
    var next := LinkNext(s, Receive, work).value;
    if i > 0 { ReceivesSettle(next, i - 1, work); }
  }

  /** After any run, a pending task that the worker still has can be answered, and then has its own result. */
  lemma PendingIsServed<P, T>(steps: seq<LinkStep<P>>, id: nat, work: P -> T) returns (more: seq<LinkStep<P>>)
    requires LinkRun(LinkInitial(), steps, work).Some?
    requires
      var s := LinkRun(LinkInitial(), steps, work).value;
      id in s.pending && id in s.atWorker
    ensures
      var s := LinkRun(LinkInitial(), steps, work).value;
      && id in s.posted && LinkRun(s, more, work).Some? && id in LinkRun(s, more, work).value.settled
      && LinkRun(s, more, work).value.settled[id] == Resolved(work(s.posted[id]))
  {
    RunUnderway(LinkInitial(), steps, work);
    var s := LinkRun(LinkInitial(), steps, work).value;
    var n := |s.replies|;
    more := [Work(id, true)] + Receives(n + 1);
    assert more[0] == Work(id, true) && more[1..] == Receives<P>(n + 1);
    var worked := LinkNext(s, Work(id, true), work).value;
    assert worked.replies[n] == (id, Some(work(s.posted[id])));
    ReceivesSettle(worked, n, work);
  }

  /** After any run, a pending task that the worker no longer has is settled by replies that are on their way. */
  lemma PendingIsSettled<P, T>(steps: seq<LinkStep<P>>, id: nat, work: P -> T) returns (more: seq<LinkStep<P>>)
    requires LinkRun(LinkInitial(), steps, work).Some?
    requires
      var s := LinkRun(LinkInitial(), steps, work).value;
      id in s.pending && id !in s.atWorker
    ensures
      var s := LinkRun(LinkInitial(), steps, work).value;
      && (forall k :: 0 <= k < |more| ==> more[k] == Receive)
      && LinkRun(s, more, work).Some? && id in LinkRun(s, more, work).value.settled
  {
    RunUnderway(LinkInitial(), steps, work);
    var s := LinkRun(LinkInitial(), steps, work).value;
    var i :| 0 <= i < |s.replies| && s.replies[i].0 == id;
    more := Receives(i + 1);
    OnlyReceives<P>(i + 1);
    ReceivesSettle(s, i, work);
  }

  lemma {:induction false} OnlyReceives<P>(n: nat)
    ensures |Receives<P>(n)| == n && forall k :: 0 <= k < |Receives<P>(n)| ==> Receives<P>(n)[k] == Receive
  {
    if n > 0 { OnlyReceives<P>(n - 1); }
  }

  /** After any run a task can be posted, worked on and received, and then has its own result. */
  lemma TaskIsServed<P, T>(steps: seq<LinkStep<P>>, task: P, work: P -> T) returns (more: seq<LinkStep<P>>)
    requires LinkRun(LinkInitial(), steps, work).Some?
    ensures
      var s := LinkRun(LinkInitial(), steps, work).value;
      && LinkRun(s, [Post(task)] + more, work).Some?
      && var end := LinkRun(s, [Post(task)] + more, work).value;
         s.nextTaskId in end.settled && end.settled[s.nextTaskId] == Resolved(work(task))
  {
    hide LinkNext;
    var s := LinkRun(LinkInitial(), steps, work).value;
    Posted(s, task, work);
    LinkRunMore(LinkInitial(), steps, [Post(task)], work);
    OnePost(s, task, work);
    more := PendingIsServed(steps + [Post(task)], s.nextTaskId, work);
    LinkRunMore(s, [Post(task)], more, work);
  }

  lemma Posted<P, T>(s: Link<P, T>, task: P, work: P -> T)
    ensures
      var next := LinkNext(s, Post(task), work);
      && next.Some? && s.nextTaskId in next.value.pending && s.nextTaskId in next.value.atWorker
      && s.nextTaskId in next.value.posted && next.value.posted[s.nextTaskId] == task
  {
  }

  lemma OnePost<P, T>(s: Link<P, T>, task: P, work: P -> T)
    ensures LinkRun(s, [Post(task)], work) == LinkNext(s, Post(task), work)
  {
    hide LinkNext;
    var steps := [Post(task)];
    assert steps[1..] == [];
  }

  lemma {:induction false} LinkRunMore<P, T>(s: Link<P, T>, a: seq<LinkStep<P>>, b: seq<LinkStep<P>>, work: P -> T)
    requires LinkRun(s, a, work).Some?
    ensures LinkRun(s, a + b, work) == LinkRun(LinkRun(s, a, work).value, b, work)
    decreases |a|
  {
    hide LinkNext;
    if a == [] {
      assert a + b == b;
    } else {
      assert (a + b)[0] == a[0] && (a + b)[1..] == a[1..] + b;
      LinkRunMore(LinkNext(s, a[0], work).value, a[1..], b, work);
    }
  }

  /** A failure can come at any time; it rejects what is pending and nothing else. */
  lemma FailRejects<P, T>(s: Link<P, T>, id: nat, work: P -> T)
    ensures
      var next := LinkNext(s, Fail, work);
      && next.Some? && next.value.pending == {} && next.value.posted == s.posted && next.value.replies == s.replies
      && (id in s.pending ==> id in next.value.settled && next.value.settled[id] == Rejected)
      && (id !in s.pending ==>
            && (id in next.value.settled <==> id in s.settled)
            && (id in s.settled ==> next.value.settled[id] == s.settled[id]))
  {
  }
}
