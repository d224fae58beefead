/** The chunk scheduler. */
module ChunkScheduler {
  import opened Wrappers
  import opened Ordering

  // Several asynchronous consumers share one prefetching queue. Between two awaits a consumer runs alone,
  // so a step is what one consumer does between two awaits, and the steps of different consumers
  // interleave in any order.

  type ChunkId = nat

  /** Where one consumer stands in its loop. */
  datatype Consumer =
    | Ready                       // about to ask for the next task
    | Loading(chunk: ChunkId)     // awaits the staged payload of its chunk
    | Loaded(chunk: ChunkId)      // holds the task, has not started it
    | Running(chunk: ChunkId)     // awaits the result of its task
    | Done                        // saw the end of the queue, or stopped early
    | LoadFailed(chunk: ChunkId)  // the payload promise was rejected
    | TaskFailed(chunk: ChunkId)  // the task was rejected

  /** The queue's closure variables. A staged chunk has an entry in the map until its payload was taken. */
  datatype Queue = Queue(nchunks: nat, cap: nat, build: nat, dispatch: nat, staged: set<ChunkId>)

  datatype Step =
    | Ask(i: nat) | PayloadArrives(i: nat) | PayloadFails(i: nat)
    | Start(i: nat) | TaskReturns(i: nat) | TaskReturnsStop(i: nat) | TaskThrows(i: nat)

  /** `P` is what a task yields for one chunk; `delivered` lists the chunks given to the task callback. */
  datatype State<P> = State(q: Queue, consumers: seq<Consumer>, delivered: seq<ChunkId>, partials: map<ChunkId, P>)

  function PrefetchCap(concurrency: nat): nat {
    if concurrency * 2 >= 4 then concurrency * 2 else 4
  }

  // ---------- the queue ----------

  /** Starts loads until the cap or the last chunk is reached. */
  function Stage(q: Queue): (r: Queue)
    ensures r.nchunks == q.nchunks && r.cap == q.cap && r.dispatch == q.dispatch
    decreases q.nchunks - q.build
  {
    if q.build < q.nchunks && |q.staged| < q.cap
    then Stage(q.(staged := q.staged + {q.build}, build := q.build + 1))
    else q
  }

  /** The map holds the undispatched loads and `pinned`, dispatched chunks whose payload was not taken. */
  ghost predicate QueueOk(q: Queue, pinned: set<ChunkId>) {
    && q.dispatch <= q.build <= q.nchunks
    && q.staged == Range(q.dispatch, q.build) + pinned
    && (forall k :: k in pinned ==> k < q.dispatch)
    && |q.staged| <= q.cap
  }

  lemma QueueBounds(q: Queue, pinned: set<ChunkId>)
    requires QueueOk(q, pinned)
    ensures q.dispatch <= q.build <= q.nchunks && |q.staged| <= q.cap
  {
  }

  /** One load is started. */
  lemma LoadOk(q: Queue, pinned: set<ChunkId>)
    requires QueueOk(q, pinned) && q.build < q.nchunks && |q.staged| < q.cap
    ensures QueueOk(q.(staged := q.staged + {q.build}, build := q.build + 1), pinned)
  {
    hide Range;
    assert Range(q.dispatch, q.build + 1) == Range(q.dispatch, q.build) + {q.build};
  }

  lemma {:induction false} StageOk(q: Queue, pinned: set<ChunkId>)
    requires QueueOk(q, pinned)
    ensures QueueOk(Stage(q), pinned)
    ensures Stage(q).build == q.nchunks || |Stage(q).staged| == q.cap
    decreases q.nchunks - q.build
  {
    hide QueueOk;
    QueueBounds(q, pinned);
    if q.build < q.nchunks && |q.staged| < q.cap {
      LoadOk(q, pinned);
      StageOk(q.(staged := q.staged + {q.build}, build := q.build + 1), pinned);
    }
  }

  /** After staging, a chunk that is left is loaded, if other consumers pin less than the cap. */
  lemma StagedAhead(q: Queue, pinned: set<ChunkId>)
    requires QueueOk(q, pinned) && (|pinned| < q.cap || q.nchunks <= q.cap)
    ensures Stage(q).dispatch < q.nchunks ==> Stage(q).dispatch < Stage(q).build
  {
    hide Range, Stage;
    StageOk(q, pinned);
    var r := Stage(q);
    if r.dispatch == r.build < q.nchunks {
      assert r.staged == pinned;
      assert pinned <= Range(0, r.dispatch);
      SubsetSize(pinned, Range(0, r.dispatch));
    }
  }

  /** Dispatching the oldest loaded chunk pins it. */
  lemma DispatchOk(q: Queue, pinned: set<ChunkId>)
    requires QueueOk(q, pinned) && q.dispatch < q.build
    ensures QueueOk(q.(dispatch := q.dispatch + 1), pinned + {q.dispatch})
  {
    hide Range;
    assert Range(q.dispatch, q.build) == Range(q.dispatch + 1, q.build) + {q.dispatch};
  }

  /** Taking the payload of a pinned chunk frees its entry. */
  lemma TakeOk(q: Queue, pinned: set<ChunkId>, k: ChunkId)
    requires QueueOk(q, pinned) && k in pinned
    ensures QueueOk(q.(staged := q.staged - {k}), pinned - {k})
  {
    hide Range;
    assert q.staged - {k} == Range(q.dispatch, q.build) + (pinned - {k});
  }

  /** The part of a request for a task before its await: the chunk to wait for, if one is left. */
  function Begin(q: Queue): (Queue, Option<ChunkId>) {
    var r := Stage(q);
    if r.dispatch >= r.nchunks then (r, None) else (r.(dispatch := r.dispatch + 1), Some(r.dispatch))
  }

  /** The part after its await: the entry is dropped and more loads are started. */
  function End(q: Queue, chunk: ChunkId): Queue {
    Stage(q.(staged := q.staged - {chunk}))
  }

  // ---------- the system ----------

  function Initial<P>(nchunks: nat, cap: nat, consumers: nat): State<P> {
    State(Queue(nchunks, cap, 0, 0, {}), seq(consumers, _ => Ready), [], map[])
  }

  /** What a step does; None when it cannot happen. `exec` gives the result of each chunk's task. */
  function Next<P>(s: State<P>, step: Step, exec: ChunkId -> P): Option<State<P>> {
    if step.i >= |s.consumers| then None
    else
      match (step, s.consumers[step.i])
      case (Ask(i), Ready) =>
        var (q, chunk) := Begin(s.q);
        Some(s.(q := q, consumers := s.consumers[i := if chunk == None then Done else Loading(chunk.value)]))
      case (PayloadArrives(i), Loading(k)) =>
        Some(s.(q := End(s.q, k), consumers := s.consumers[i := Loaded(k)]))
      case (PayloadFails(i), Loading(k)) => Some(s.(consumers := s.consumers[i := LoadFailed(k)]))
      case (Start(i), Loaded(k)) =>
        Some(s.(consumers := s.consumers[i := Running(k)], delivered := s.delivered + [k]))
      case (TaskReturns(i), Running(k)) =>
        Some(s.(consumers := s.consumers[i := Ready], partials := s.partials[k := exec(k)]))
      case (TaskReturnsStop(i), Running(k)) =>
        Some(s.(consumers := s.consumers[i := Done], partials := s.partials[k := exec(k)]))
      case (TaskThrows(i), Running(k)) => Some(s.(consumers := s.consumers[i := TaskFailed(k)]))
      case _ => None
  }

  function Run<P>(s: State<P>, steps: seq<Step>, exec: ChunkId -> P): Option<State<P>>
    decreases |steps|
  {
    if steps == [] then Some(s)
    else
      match Next(s, steps[0], exec)
      case None => None
      case Some(s') => Run(s', steps[1..], exec)
  }

  /** A consumer that is waiting for a payload finds an entry for its chunk. */
  predicate Found<P>(s: State<P>) {
    forall i :: 0 <= i < |s.consumers| && s.consumers[i].Loading? ==> s.consumers[i].chunk in s.q.staged
  }

  // ---------- the invariant ----------

  predicate HasChunk(c: Consumer) {
    !c.Ready? && !c.Done?
  }

  /** The consumer's chunk still has its entry in the map. */
  predicate Pins(c: Consumer) {
    c.Loading? || c.LoadFailed?
  }

  /** The consumer's chunk was given to the task callback. */
  predicate Delivered(c: Consumer) {
    c.Running? || c.TaskFailed?
  }

  ghost predicate PinnedBySome(cs: seq<Consumer>, k: ChunkId) {
    exists i :: 0 <= i < |cs| && Pins(cs[i]) && cs[i].chunk == k
  }

  ghost function Pinned(cs: seq<Consumer>): (r: set<ChunkId>)
    ensures forall k :: k in r <==> PinnedBySome(cs, k)
    ensures |r| <= |cs|
  {
    if cs == [] then {}
    else
      var front, last := cs[..|cs| - 1], cs[|cs| - 1];
      assert cs == front + [last];
      assert forall k :: PinnedBySome(front, k) ==> PinnedBySome(cs, k);
      assert Pins(last) ==> PinnedBySome(cs, last.chunk);
      Pinned(front) + (if Pins(last) then {last.chunk} else {})
  }

  /** The chunk has a result or is with some consumer. */
  ghost predicate Accounted(cs: seq<Consumer>, finished: set<ChunkId>, k: ChunkId) {
    k in finished || exists i :: 0 <= i < |cs| && HasChunk(cs[i]) && cs[i].chunk == k
  }

  /** Consumers hold different chunks, all dispatched and without a result. */
  ghost predicate Apart(cs: seq<Consumer>, finished: set<ChunkId>, dispatch: nat) {
    && (forall i :: 0 <= i < |cs| && HasChunk(cs[i]) ==> cs[i].chunk < dispatch && cs[i].chunk !in finished)
    && (forall i, j :: 0 <= i < j < |cs| && HasChunk(cs[i]) && HasChunk(cs[j]) ==> cs[i].chunk != cs[j].chunk)
  }

  /** The delivered chunks are those with a result and those being worked on, each once. */
  ghost predicate DeliveredOnce(cs: seq<Consumer>, finished: set<ChunkId>, dispatch: nat, delivered: seq<ChunkId>) {
    && (forall i, j :: 0 <= i < j < |delivered| ==> delivered[i] != delivered[j])
    && (forall k :: k in finished ==> k in delivered)
    && (forall i :: 0 <= i < |cs| && HasChunk(cs[i]) ==> (Delivered(cs[i]) <==> cs[i].chunk in delivered))
    && (forall k :: k in delivered ==> k < dispatch)
  }

  /** Every dispatched chunk is accounted for, and results are the results of their chunks. */
  ghost predicate Results<P>(cs: seq<Consumer>, partials: map<ChunkId, P>, dispatch: nat, exec: ChunkId -> P) {
    && (forall k :: k in partials ==> k < dispatch && partials[k] == exec(k))
    && (forall k :: 0 <= k < dispatch ==> Accounted(cs, partials.Keys, k))
  }

  ghost predicate Inv<P>(s: State<P>, exec: ChunkId -> P) {
    && QueueOk(s.q, Pinned(s.consumers))
    && (|s.consumers| <= s.q.cap || s.q.nchunks <= s.q.cap)
    && Apart(s.consumers, s.partials.Keys, s.q.dispatch)
    && DeliveredOnce(s.consumers, s.partials.Keys, s.q.dispatch, s.delivered)
    && Results(s.consumers, s.partials, s.q.dispatch, exec)
  }

  /** A consumer that pins nothing leaves room for one more. */
  lemma PinnedRoom(cs: seq<Consumer>, i: nat)
    requires i < |cs| && !Pins(cs[i])
    ensures |Pinned(cs)| < |cs|
  {
    var others := cs[..i] + cs[i + 1..];
    hide Pinned;
    forall k | PinnedBySome(cs, k) ensures PinnedBySome(others, k) {
      var j :| 0 <= j < |cs| && Pins(cs[j]) && cs[j].chunk == k;
      assert others[if j < i then j else j - 1] == cs[j];
    }
    SubsetSize(Pinned(cs), Pinned(others));
  }

  /** Replacing one consumer changes the pinned chunks by that consumer only. */
  lemma PinnedUpdate(cs: seq<Consumer>, i: nat, c: Consumer)
    requires i < |cs| && !Pins(cs[i])
    ensures Pinned(cs[i := c]) == Pinned(cs) + (if Pins(c) then {c.chunk} else {})
  {
    hide Pinned;
    var ds := cs[i := c];
    forall k | PinnedBySome(cs, k) ensures PinnedBySome(ds, k) {
      var j :| 0 <= j < |cs| && Pins(cs[j]) && cs[j].chunk == k;
      assert ds[j] == cs[j];
    }
    if Pins(c) { assert ds[i] == c; }
  }

  /** A consumer whose chunk nobody else holds stops pinning it. */
  lemma PinnedRelease(cs: seq<Consumer>, i: nat, c: Consumer)
    requires i < |cs| && Pins(cs[i]) && !Pins(c)
    requires forall j :: 0 <= j < |cs| && j != i && Pins(cs[j]) ==> cs[j].chunk != cs[i].chunk
    ensures Pinned(cs[i := c]) == Pinned(cs) - {cs[i].chunk}
  {
    hide Pinned;
    var ds := cs[i := c];
    forall k | PinnedBySome(cs, k) && k != cs[i].chunk ensures PinnedBySome(ds, k) {
      var j :| 0 <= j < |cs| && Pins(cs[j]) && cs[j].chunk == k;
      assert ds[j] == cs[j];
    }
  }

  /** Chunks of the other consumers stay accounted for when consumer `i` moves on. */
  lemma AccountedUpdate(cs: seq<Consumer>, i: nat, c: Consumer, finished: set<ChunkId>, finished': set<ChunkId>,
        k: ChunkId)
    requires i < |cs| && finished <= finished' && Accounted(cs, finished, k)
    requires HasChunk(cs[i]) ==> cs[i].chunk in finished' || (HasChunk(c) && c.chunk == cs[i].chunk)
    ensures Accounted(cs[i := c], finished', k)
  {
    var ds := cs[i := c];
    if k !in finished {
      var j :| 0 <= j < |cs| && HasChunk(cs[j]) && cs[j].chunk == k;
      if j != i { assert ds[j] == cs[j]; } else { assert ds[i] == c; }
    }
  }

  // ---------- asking for a task ----------

  lemma AskQueue<P>(s: State<P>, i: nat, exec: ChunkId -> P)
    requires QueueOk(s.q, Pinned(s.consumers)) && (|s.consumers| <= s.q.cap || s.q.nchunks <= s.q.cap)
    requires Next(s, Ask(i), exec).Some?
    ensures
      var s' := Next(s, Ask(i), exec).value;
      QueueOk(s'.q, Pinned(s'.consumers))
  {
    hide Pinned, Stage, QueueOk;
    var s' := Next(s, Ask(i), exec).value;
    var pinned := Pinned(s.consumers);
    var q := Stage(s.q);
    PinnedRoom(s.consumers, i);
    StageOk(s.q, pinned);
    StagedAhead(s.q, pinned);
    PinnedUpdate(s.consumers, i, s'.consumers[i]);
    if q.dispatch < q.nchunks { DispatchOk(q, pinned); }
    else { assert Pinned(s'.consumers) == pinned; }
  }

  lemma AskConsumers<P>(s: State<P>, i: nat, exec: ChunkId -> P)
    requires Next(s, Ask(i), exec).Some?
    requires Apart(s.consumers, s.partials.Keys, s.q.dispatch)
    requires DeliveredOnce(s.consumers, s.partials.Keys, s.q.dispatch, s.delivered)
    requires Results(s.consumers, s.partials, s.q.dispatch, exec)
    ensures
      var s' := Next(s, Ask(i), exec).value;
      && Apart(s'.consumers, s'.partials.Keys, s'.q.dispatch)
      && DeliveredOnce(s'.consumers, s'.partials.Keys, s'.q.dispatch, s'.delivered)
  {
  }

  lemma AskResults<P>(s: State<P>, i: nat, exec: ChunkId -> P)
    requires Next(s, Ask(i), exec).Some?
    requires Results(s.consumers, s.partials, s.q.dispatch, exec)
    ensures
      var s' := Next(s, Ask(i), exec).value;
      Results(s'.consumers, s'.partials, s'.q.dispatch, exec)
  {
    var s' := Next(s, Ask(i), exec).value;
    var c := s'.consumers[i];
    forall k | 0 <= k < s'.q.dispatch ensures Accounted(s'.consumers, s'.partials.Keys, k) {
      if k < s.q.dispatch {
        AccountedUpdate(s.consumers, i, c, s.partials.Keys, s.partials.Keys, k);
      } else {
        assert HasChunk(s'.consumers[i]) && s'.consumers[i].chunk == k;
      }
    }
  }

  // ---------- every other step ----------

  /** The queue after consumer `i`, which holds its chunk alone, got the payload. */
  lemma ArriveQueue(q: Queue, cs: seq<Consumer>, i: nat)
    requires i < |cs| && cs[i].Loading? && QueueOk(q, Pinned(cs))
    requires forall j :: 0 <= j < |cs| && j != i && Pins(cs[j]) ==> cs[j].chunk != cs[i].chunk
    ensures QueueOk(Stage(q.(staged := q.staged - {cs[i].chunk})), Pinned(cs[i := Loaded(cs[i].chunk)]))
  {
    hide Pinned, Stage, QueueOk;
    var k := cs[i].chunk;
    PinnedRelease(cs, i, Loaded(k));
    assert PinnedBySome(cs, k);
    TakeOk(q, Pinned(cs), k);
    StageOk(q.(staged := q.staged - {k}), Pinned(cs[i := Loaded(k)]));
  }

  /** A failed load keeps its entry. */
  lemma FailedStaysPinned(cs: seq<Consumer>, i: nat)
    requires i < |cs| && cs[i].Loading?
    ensures Pinned(cs[i := LoadFailed(cs[i].chunk)]) == Pinned(cs)
  {
    hide Pinned;
    var ds := cs[i := LoadFailed(cs[i].chunk)];
    forall k ensures PinnedBySome(cs, k) <==> PinnedBySome(ds, k) {
      if PinnedBySome(cs, k) {
        var j :| 0 <= j < |cs| && Pins(cs[j]) && cs[j].chunk == k;
        assert Pins(ds[j]) && ds[j].chunk == k;
      }
      if PinnedBySome(ds, k) {
        var j :| 0 <= j < |ds| && Pins(ds[j]) && ds[j].chunk == k;
        assert Pins(cs[j]) && cs[j].chunk == k;
      }
    }
  }

  lemma HeldAlone(cs: seq<Consumer>, finished: set<ChunkId>, dispatch: nat, i: nat)
    requires Apart(cs, finished, dispatch) && i < |cs| && HasChunk(cs[i])
    ensures forall j :: 0 <= j < |cs| && j != i && Pins(cs[j]) ==> cs[j].chunk != cs[i].chunk
  {
  }

  lemma MoveQueue<P>(s: State<P>, step: Step, exec: ChunkId -> P)
    requires QueueOk(s.q, Pinned(s.consumers)) && Apart(s.consumers, s.partials.Keys, s.q.dispatch)
    requires Next(s, step, exec).Some? && !step.Ask?
    ensures
      var s' := Next(s, step, exec).value;
      QueueOk(s'.q, Pinned(s'.consumers)) && s'.q.dispatch == s.q.dispatch
  {
    hide QueueOk, Apart, Pinned, Stage;
    var s' := Next(s, step, exec).value;
    var i := step.i;
    if step.PayloadArrives? {
      HeldAlone(s.consumers, s.partials.Keys, s.q.dispatch, i);
      ArriveQueue(s.q, s.consumers, i);
    } else {
      if step.PayloadFails? { FailedStaysPinned(s.consumers, i); }
      else { PinnedUpdate(s.consumers, i, s'.consumers[i]); }
      assert Pinned(s'.consumers) == Pinned(s.consumers);
    }
  }

  lemma MoveApart<P>(s: State<P>, step: Step, exec: ChunkId -> P)
    requires Apart(s.consumers, s.partials.Keys, s.q.dispatch) && Next(s, step, exec).Some? && !step.Ask?
    ensures
      var s' := Next(s, step, exec).value;
      Apart(s'.consumers, s'.partials.Keys, s.q.dispatch)
  {
  }

  lemma MoveDelivered<P>(s: State<P>, step: Step, exec: ChunkId -> P)
    requires Apart(s.consumers, s.partials.Keys, s.q.dispatch) && Next(s, step, exec).Some? && !step.Ask?
    requires DeliveredOnce(s.consumers, s.partials.Keys, s.q.dispatch, s.delivered)
    ensures
      var s' := Next(s, step, exec).value;
      DeliveredOnce(s'.consumers, s'.partials.Keys, s.q.dispatch, s'.delivered)
  {
  }

  lemma MoveResults<P>(s: State<P>, step: Step, exec: ChunkId -> P)
    requires Apart(s.consumers, s.partials.Keys, s.q.dispatch) && Next(s, step, exec).Some? && !step.Ask?
    requires Results(s.consumers, s.partials, s.q.dispatch, exec)
    ensures
      var s' := Next(s, step, exec).value;
      Results(s'.consumers, s'.partials, s.q.dispatch, exec)
  {
    var s' := Next(s, step, exec).value;
    forall k | 0 <= k < s.q.dispatch ensures Accounted(s'.consumers, s'.partials.Keys, k) {
      AccountedUpdate(s.consumers, step.i, s'.consumers[step.i], s.partials.Keys, s'.partials.Keys, k);
    }
  }

  // ---------- all runs ----------

  lemma StepKeeps<P>(s: State<P>, step: Step, exec: ChunkId -> P)
    requires Inv(s, exec) && Next(s, step, exec).Some?
    ensures Inv(Next(s, step, exec).value, exec)
  {
    hide Apart, DeliveredOnce, Results, QueueOk;
    if step.Ask? {
      AskQueue(s, step.i, exec);
      AskConsumers(s, step.i, exec);
      AskResults(s, step.i, exec);
    } else {
      MoveQueue(s, step, exec);
      MoveApart(s, step, exec);
      MoveDelivered(s, step, exec);
      MoveResults(s, step, exec);
    }
  }

  lemma {:induction false} RunKeeps<P>(s: State<P>, steps: seq<Step>, exec: ChunkId -> P)
    requires Inv(s, exec) && Run(s, steps, exec).Some?
    ensures Inv(Run(s, steps, exec).value, exec)
    decreases |steps|
  {
    if steps == [] {
    } else {
      StepKeeps(s, steps[0], exec);
      RunKeeps(Next(s, steps[0], exec).value, steps[1..], exec);
    }
  }

  lemma InvFound<P>(s: State<P>, exec: ChunkId -> P)
    requires Inv(s, exec)
    ensures Found(s) && |s.q.staged| <= s.q.cap
  {
    hide Range, Pinned;
    forall i | 0 <= i < |s.consumers| && s.consumers[i].Loading? ensures s.consumers[i].chunk in s.q.staged {
      assert PinnedBySome(s.consumers, s.consumers[i].chunk);
    }
  }

  lemma InitialInv<P>(nchunks: nat, cap: nat, consumers: nat, exec: ChunkId -> P)
    requires consumers <= cap || nchunks <= cap
    ensures Inv(Initial(nchunks, cap, consumers), exec)
  {
    var s: State<P> := Initial(nchunks, cap, consumers);
    assert Pinned(s.consumers) == {} by {
      hide Pinned;
      forall k ensures !PinnedBySome(s.consumers, k) {}
    }
  }

  /**
   Any number of consumers, any interleaving and any failures: every consumer that waits for a
   payload finds its chunk staged, and the staged map stays within the cap.
   */
  lemma RunFound<P>(nchunks: nat, cap: nat, consumers: nat, steps: seq<Step>, exec: ChunkId -> P)
    requires consumers <= cap || nchunks <= cap
    requires Run(Initial(nchunks, cap, consumers), steps, exec).Some?
    ensures
      var s := Run(Initial(nchunks, cap, consumers), steps, exec).value;
      Found(s) && |s.q.staged| <= cap
  {
    InitialInv(nchunks, cap, consumers, exec);
    RunKeeps(Initial(nchunks, cap, consumers), steps, exec);
    InvFound(Run(Initial(nchunks, cap, consumers), steps, exec).value, exec);
    RunCap(Initial(nchunks, cap, consumers), steps, exec);
  }

  lemma {:induction false} RunCap<P>(s: State<P>, steps: seq<Step>, exec: ChunkId -> P)
    requires Run(s, steps, exec).Some?
    ensures
      var s' := Run(s, steps, exec).value;
      s'.q.cap == s.q.cap && s'.q.nchunks == s.q.nchunks && |s'.consumers| == |s.consumers|
    decreases |steps|
  {
    if steps == [] {
    } else {
      RunCap(Next(s, steps[0], exec).value, steps[1..], exec);
    }
  }

  /** The queue as the code builds it is always safe: the cap is at least twice the consumer count. */
  lemma PrefetchCapSuffices(concurrency: nat)
    ensures concurrency <= PrefetchCap(concurrency) && 2 * concurrency <= PrefetchCap(concurrency)
    ensures PrefetchCap(concurrency) >= 4 && (PrefetchCap(concurrency) == 2 * concurrency || concurrency < 2)
    ensures PrefetchCap(concurrency) == 4 || concurrency > 2
  {
  }

  // ---------- the bound is exact ----------

  ghost predicate AlwaysFound<P>(nchunks: nat, cap: nat, consumers: nat, exec: ChunkId -> P) {
    forall steps :: Run(Initial(nchunks, cap, consumers), steps, exec).Some?
                    ==> Found(Run(Initial(nchunks, cap, consumers), steps, exec).value)
  }

  function Asks(n: nat): seq<Step> {
    if n == 0 then [] else Asks(n - 1) + [Ask(n - 1)]
  }

  lemma {:induction false} RunConcat<P>(s: State<P>, a: seq<Step>, b: seq<Step>, exec: ChunkId -> P)
    requires Run(s, a, exec).Some?
    ensures Run(s, a + b, exec) == Run(Run(s, a, exec).value, b, exec)
    decreases |a|
  {
    if a == [] {
      assert a + b == b;
    } else {
      assert (a + b)[0] == a[0] && (a + b)[1..] == a[1..] + b;
      RunConcat(Next(s, a[0], exec).value, a[1..], b, exec);
    }
  }

  lemma RunOne<P>(s: State<P>, step: Step, exec: ChunkId -> P)
    ensures Run(s, [step], exec) == Next(s, step, exec)
  {
    var steps := [step];
    assert steps[1..] == [];
    match Next(s, step, exec)
    case None =>
    case Some(s') => assert Run(s', [], exec) == Some(s');
  }

  /** The state after the first `n` consumers asked and nothing arrived. */
  ghost predicate AllAsked<P>(s: State<P>, n: nat, nchunks: nat, cap: nat, consumers: nat) {
    && |s.consumers| == consumers
    && s.q.nchunks == nchunks && s.q.cap == cap && s.q.dispatch == n
    && (forall i :: 0 <= i < n && i < consumers ==> s.consumers[i] == Loading(i))
    && (forall i :: n <= i < consumers ==> s.consumers[i] == Ready)
  }

  /** Consumers that only ask exhaust the staged loads. */
  lemma {:induction false} AskAll<P>(n: nat, nchunks: nat, cap: nat, consumers: nat, exec: ChunkId -> P)
    requires 0 < n <= cap + 1 && n <= consumers && cap < nchunks
    ensures Run(Initial(nchunks, cap, consumers), Asks(n), exec).Some?
    ensures
      var s := Run(Initial(nchunks, cap, consumers), Asks(n), exec).value;
      AllAsked(s, n, nchunks, cap, consumers) && s.q.staged == Range(0, cap) && s.q.build == cap
    decreases n
  {
    var s0: State<P> := Initial(nchunks, cap, consumers);
    if n == 1 {
      assert Asks(1) == [Ask(0)];
      RunOne(s0, Ask(0), exec);
      StageFills(s0.q);
    } else {
      AskAll(n - 1, nchunks, cap, consumers, exec);
      var s := Run(s0, Asks(n - 1), exec).value;
      RunConcat(s0, Asks(n - 1), [Ask(n - 1)], exec);
      RunOne(s, Ask(n - 1), exec);
      assert |s.q.staged| == cap;
      assert Stage(s.q) == s.q;
    }
  }

  lemma {:induction false} StageFills(q: Queue)
    requires q.build <= q.cap <= q.nchunks && q.staged == Range(0, q.build)
    ensures Stage(q).build == q.cap && Stage(q).staged == Range(0, q.cap)
    decreases q.cap - q.build
  {
    if q.build < q.cap {
      assert Range(0, q.build + 1) == Range(0, q.build) + {q.build};
      StageFills(q.(staged := q.staged + {q.build}, build := q.build + 1));
    }
  }

  /** No run misses a staged payload exactly when the cap covers all consumers or all chunks. */
  lemma CapBoundExact<P>(nchunks: nat, cap: nat, consumers: nat, exec: ChunkId -> P)
    ensures AlwaysFound(nchunks, cap, consumers, exec) <==> consumers <= cap || nchunks <= cap
  {
    if consumers <= cap || nchunks <= cap {
      forall steps | Run(Initial(nchunks, cap, consumers), steps, exec).Some?
        ensures Found(Run(Initial(nchunks, cap, consumers), steps, exec).value)
      {
        RunFound(nchunks, cap, consumers, steps, exec);
      }
    } else {
      AskAll(cap + 1, nchunks, cap, consumers, exec);
      var s := Run(Initial(nchunks, cap, consumers), Asks(cap + 1), exec).value;
      assert s.consumers[cap] == Loading(cap) && cap !in s.q.staged;
    }
  }

  // ---------- progress ----------

  function Weight(c: Consumer): nat {
    match c
    case Ready => 1
    case Loading(_) => 4
    case Loaded(_) => 3
    case Running(_) => 2
    case _ => 0
  }

  function TotalWeight(cs: seq<Consumer>): nat {
    if cs == [] then 0 else TotalWeight(cs[..|cs| - 1]) + Weight(cs[|cs| - 1])
  }

  lemma {:induction false} WeightUpdate(cs: seq<Consumer>, i: nat, c: Consumer)
    requires i < |cs|
    ensures TotalWeight(cs[i := c]) == TotalWeight(cs) - Weight(cs[i]) + Weight(c)
  {
    var ds := cs[i := c];
    var n := |cs| - 1;
    if i == n {
      assert ds[..n] == cs[..n];
    } else {
      assert ds[..n] == cs[..n][i := c];
      WeightUpdate(cs[..n], i, c);
    }
  }

  /** What is left to do: at most four more steps for each undispatched chunk and each consumer. */
  function Work<P>(s: State<P>): nat
    requires s.q.dispatch <= s.q.nchunks
  {
    4 * (s.q.nchunks - s.q.dispatch) + TotalWeight(s.consumers)
  }

  lemma StepWorks<P>(s: State<P>, step: Step, exec: ChunkId -> P)
    requires s.q.dispatch <= s.q.nchunks && Next(s, step, exec).Some?
    ensures
      var s' := Next(s, step, exec).value;
      s'.q.dispatch <= s'.q.nchunks && Work(s') < Work(s)
  {
    hide Stage, TotalWeight;
    WeightUpdate(s.consumers, step.i, Next(s, step, exec).value.consumers[step.i]);
  }

  /** Every run is finite: it is no longer than the work at its start. */
  lemma {:induction false} RunBounded<P>(s: State<P>, steps: seq<Step>, exec: ChunkId -> P)
    requires s.q.dispatch <= s.q.nchunks && Run(s, steps, exec).Some?
    ensures |steps| <= Work(s)
    decreases |steps|
  {
    if steps == [] {
    } else {
      StepWorks(s, steps[0], exec);
      RunBounded(Next(s, steps[0], exec).value, steps[1..], exec);
    }
  }

  predicate Finished(c: Consumer) {
    c.Done? || c.LoadFailed? || c.TaskFailed?
  }

  /** A consumer that is not finished can always move, whatever the others do. */
  lemma NeverStuck<P>(s: State<P>, i: nat, exec: ChunkId -> P)
    requires i < |s.consumers|
    ensures Finished(s.consumers[i]) <==> forall step: Step :: step.i == i ==> Next(s, step, exec) == None
  {
    match s.consumers[i]
    case Ready => assert Next(s, Ask(i), exec).Some?;
    case Loading(_) => assert Next(s, PayloadArrives(i), exec).Some?;
    case Loaded(_) => assert Next(s, Start(i), exec).Some?;
    case Running(_) => assert Next(s, TaskReturns(i), exec).Some?;
    case _ =>
  }

  /** Where a step takes the consumer that makes it; a request ends with a chunk or with the end of the queue. */
  ghost predicate Leads(step: Step, from: Consumer, to: Consumer) {
    match step
    case Ask(_) => from.Ready? && (to.Loading? || to.Done?)
    case PayloadArrives(_) => from.Loading? && to == Loaded(from.chunk)
    case PayloadFails(_) => from.Loading? && to == LoadFailed(from.chunk)
    case Start(_) => from.Loaded? && to == Running(from.chunk)
    case TaskReturns(_) => from.Running? && to == Ready
    case TaskReturnsStop(_) => from.Running? && to == Done
    case TaskThrows(_) => from.Running? && to == TaskFailed(from.chunk)
  }

  /** A consumer asks when it is ready, gets a payload or none when it waits for one, and so on. */
  lemma StepsExactly<P>(s: State<P>, step: Step, exec: ChunkId -> P)
    requires step.i < |s.consumers|
    ensures
      var c, next := s.consumers[step.i], Next(s, step, exec);
      && (next.Some? <==> exists to :: Leads(step, c, to))
      && (next.Some? ==>
            && Leads(step, c, next.value.consumers[step.i]) && |next.value.consumers| == |s.consumers|
            && forall j :: 0 <= j < |s.consumers| && j != step.i ==> next.value.consumers[j] == s.consumers[j])
  {
    hide Stage;
    var c := s.consumers[step.i];
    if Next(s, step, exec).Some? { assert Leads(step, c, Next(s, step, exec).value.consumers[step.i]); }
  }

  // ---------- complete runs ----------

  /** No payload or task fails and nobody stops early. */
  predicate Smooth(steps: seq<Step>) {
    forall j :: 0 <= j < |steps| ==>
      !steps[j].PayloadFails? && !steps[j].TaskThrows? && !steps[j].TaskReturnsStop?
  }

  /** Nobody failed, and nobody is done before the last chunk was dispatched. */
  predicate SmoothState<P>(s: State<P>) {
    forall i :: 0 <= i < |s.consumers| ==>
      !s.consumers[i].LoadFailed? && !s.consumers[i].TaskFailed?
      && (s.consumers[i].Done? ==> s.q.dispatch >= s.q.nchunks)
  }

  lemma {:induction false} RunSmooth<P>(s: State<P>, steps: seq<Step>, exec: ChunkId -> P)
    requires SmoothState(s) && Smooth(steps) && Run(s, steps, exec).Some?
    ensures SmoothState(Run(s, steps, exec).value)
    decreases |steps|
  {
    if steps == [] {
    } else {
      hide Stage;
      var s' := Next(s, steps[0], exec).value;
      assert SmoothState(s');
      assert Smooth(steps[1..]);
      RunSmooth(s', steps[1..], exec);
    }
  }

  /** The result of every chunk. */
  function AllResults<P>(nchunks: nat, exec: ChunkId -> P): map<ChunkId, P> {
    map k: nat | 0 <= k < nchunks :: exec(k)
  }

  /**
   When a run without failures and early stop is over, every chunk was given to the task callback
   exactly once, and the stored partials are the chunks' own results: nothing depends on the
   number of consumers, the cap or the interleaving.
   */
  lemma CompleteRun<P>(nchunks: nat, cap: nat, consumers: nat, steps: seq<Step>, exec: ChunkId -> P)
    requires 0 < consumers && (consumers <= cap || nchunks <= cap)
    requires Smooth(steps) && Run(Initial(nchunks, cap, consumers), steps, exec).Some?
    requires
      var s := Run(Initial(nchunks, cap, consumers), steps, exec).value;
      forall i :: 0 <= i < |s.consumers| ==> Finished(s.consumers[i])
    ensures
      var s := Run(Initial(nchunks, cap, consumers), steps, exec).value;
      && s.partials == AllResults(nchunks, exec)
      && Lists(s.delivered, Range(0, nchunks)) && |s.delivered| == nchunks
  {
    hide Inv, Range;
    var s0: State<P> := Initial(nchunks, cap, consumers);
    InitialInv(nchunks, cap, consumers, exec);
    RunKeeps(s0, steps, exec);
    RunSmooth(s0, steps, exec);
    RunCap(s0, steps, exec);
    AllDone(Run(s0, steps, exec).value, exec);
  }

  lemma AllDone<P>(s: State<P>, exec: ChunkId -> P)
    requires Inv(s, exec) && SmoothState(s) && |s.consumers| > 0
    requires forall i :: 0 <= i < |s.consumers| ==> Finished(s.consumers[i])
    ensures s.partials == AllResults(s.q.nchunks, exec)
    ensures Lists(s.delivered, Range(0, s.q.nchunks)) && |s.delivered| == s.q.nchunks
  {
    hide Pinned, Range;
    assert s.consumers[0].Done?;
    assert s.q.dispatch == s.q.nchunks;
    forall k | 0 <= k < s.q.nchunks ensures k in s.partials {
      assert Accounted(s.consumers, s.partials.Keys, k);
    }
    ListsLength(s.delivered, Range(0, s.q.nchunks));
  }

  // ---------- the queue object ----------

  /** The closure over `build`, `dispatch` and `staged`; its two methods are the two halves of one call. */
  class ChunkQueue {
    const nchunks: nat
    const cap: nat
    var build: nat
    var dispatch: nat
    var staged: set<ChunkId>

    function View(): Queue
      reads this
    {
      Queue(nchunks, cap, build, dispatch, staged)
    }

    constructor (nchunks: nat, cap: nat)
      ensures this.nchunks == nchunks && this.cap == cap
      ensures View() == Queue(nchunks, cap, 0, 0, {})
    {
      this.nchunks, this.cap := nchunks, cap;
      build, dispatch, staged := 0, 0, {};
    }

    method StageLoads()
      modifies this`build, this`staged
      ensures View() == Stage(old(View()))
    {
      while build < nchunks && |staged| < cap
        invariant Stage(View()) == Stage(old(View()))
        invariant dispatch == old(dispatch)
      {
        staged := staged + {build};
        build := build + 1;
      }
    }

    method BeginNext() returns (chunk: Option<ChunkId>)
      modifies this
      ensures (View(), chunk) == Begin(old(View()))
    {
      StageLoads();
      if dispatch >= nchunks { return None; }
      chunk := Some(dispatch);
      dispatch := dispatch + 1;
    }

    method EndNext(chunk: ChunkId)
      modifies this
      ensures View() == End(old(View()), chunk)
    {
      staged := staged - {chunk};
      StageLoads();
    }
  }
}
