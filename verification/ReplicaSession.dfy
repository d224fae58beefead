/** Client, worker and copy together. */
module ReplicaSession {
  import opened EngineSync
  import opened ViewModelPatch
  import opened Wrappers
  import WorkerClient

  // The requests of a client are numbered in the order they are made. The worker serves a message by running the
  // pipeline on its engine; the reply carries what the pipeline ended with, and settling the job updates the copy.

  /** A request: start over, or handle events. */
  datatype Call<E> = Start | Dispatch(request: Request<E>)

  /** What a reply carries: a whole view model, or the end of a pipeline. */
  datatype Content = Whole(vm: Value) | Update(reply: Reply)

  ghost function ServeCall<S, E, F, V>(app: App<S, E, F, V>, state: S, call: Call<E>): (S, Content) {
    match call
    case Start => (app.initial, Whole(Shown(app, app.initial)))
    case Dispatch(r) => (Serve(app, state, r).state, Update(Serve(app, state, r).reply))
  }

  /** The copy after a reply: replaced by a whole view model, or updated by patches. */
  ghost function Taken(copy: TsResult, content: Content): TsResult {
    match content
    case Whole(vm) => Done(vm)
    case Update(reply) => if copy.Done? then Receive(copy.value, reply) else copy
  }

  // ---------- the requests served one after the other ----------

  /** The engine's state after the first `n` requests. */
  ghost function StateAfter<S, E, F, V>(app: App<S, E, F, V>, calls: seq<Call<E>>, n: nat): S
    requires n <= |calls|
  {
    if n == 0 then app.initial else ServeCall(app, StateAfter(app, calls, n - 1), calls[n - 1]).0
  }

  ghost function ContentOf<S, E, F, V>(app: App<S, E, F, V>, calls: seq<Call<E>>, k: nat): Content
    requires k < |calls|
  {
    ServeCall(app, StateAfter(app, calls, k), calls[k]).1
  }

  /** The copy after the first `n` replies. */
  ghost function CopyAfter<S, E, F, V>(app: App<S, E, F, V>, calls: seq<Call<E>>, copy: TsResult, n: nat): TsResult
    requires n <= |calls|
  {
    if n == 0 then copy else Taken(CopyAfter(app, calls, copy, n - 1), ContentOf(app, calls, n - 1))
  }

  ghost predicate CopyIsRight<S, E, F, V>(app: App<S, E, F, V>, calls: seq<Call<E>>, copy: TsResult, n: nat)
    requires n <= |calls|
  {
    var c := CopyAfter(app, calls, copy, n);
    c.Done? && Normal(c.value) == Normal(Shown(app, StateAfter(app, calls, n)))
  }

  /** Request `k` starts over, is answered, or leaves the shown view model equal. */
  ghost predicate LosesNothing<S, E, F, V>(app: App<S, E, F, V>, calls: seq<Call<E>>, k: nat)
    requires k < |calls|
  {
    || calls[k].Start?
    || ContentOf(app, calls, k).reply.Answered?
    || Normal(Shown(app, StateAfter(app, calls, k))) == Normal(Shown(app, StateAfter(app, calls, k + 1)))
  }

  /**
   After a first request that starts over, the copy is right after every reply exactly when no request loses patches.
   */
  lemma {:induction false} CopyRightExactly<S, E, F, V>(app: App<S, E, F, V>, calls: seq<Call<E>>, copy: TsResult,
        n: nat)
    requires n <= |calls| && calls != [] && calls[0].Start?
    ensures (forall m :: 1 <= m <= n ==> CopyIsRight(app, calls, copy, m))
      <==> (forall k :: 0 <= k < n ==> LosesNothing(app, calls, k))
  {
    if n == 0 {
    } else {
      CopyRightExactly(app, calls, copy, n - 1);
      if calls[n - 1].Start? {
        assert CopyIsRight(app, calls, copy, n);
      } else if CopyIsRight(app, calls, copy, n - 1) {
        CopyAfterRequest(app, StateAfter(app, calls, n - 1), CopyAfter(app, calls, copy, n - 1).value,
          calls[n - 1].request);
        assert CopyIsRight(app, calls, copy, n) <==> LosesNothing(app, calls, n - 1);
      }
    }
  }

  // ---------- any run of client and worker ----------

  /** The queue and the messages out, the engine at the worker, what the replies carry, and the copy. */
  datatype Joint<S> = Joint(client: WorkerClient.State, engine: S, contents: map<WorkerClient.Id, Content>,
    copy: TsResult)

  /** One step; a request whose effects have not ended is not answered, and there are no requests but the given ones. */
  ghost function JointNext<S, E, F, V>(app: App<S, E, F, V>, calls: seq<Call<E>>, j: Joint<S>, step: WorkerClient.Step)
    : Option<Joint<S>>
  {
    var next := WorkerClient.Next(j.client, step);
    if next.None? then None
    else
      match step
      case Enqueue => if j.client.next < |calls| then Some(j.(client := next.value)) else None
      case Answer(k) =>
        var id := j.client.atWorker[k];
        if id >= |calls| then None
        else
          var served := ServeCall(app, j.engine, calls[id]);
          if served.1 == Update(Waiting) then None
          else Some(j.(client := next.value, engine := served.0, contents := j.contents[id := served.1]))
      case Deliver =>
        if j.client.jobs == [] then Some(j.(client := next.value))
        else if j.client.replies[0] !in j.contents then None
        else Some(j.(client := next.value, copy := Taken(j.copy, j.contents[j.client.replies[0]])))
      case Fault => Some(j.(client := next.value))
  }

  ghost function JointRun<S, E, F, V>(app: App<S, E, F, V>, calls: seq<Call<E>>, j: Joint<S>,
        steps: seq<WorkerClient.Step>)
    : Option<Joint<S>>
    decreases |steps|
  {
    if steps == [] then Some(j)
    else
      var next := JointNext(app, calls, j, steps[0]);
      if next.None? then None else JointRun(app, calls, next.value, steps[1..])
  }

  ghost function Begin<S, E, F, V>(app: App<S, E, F, V>, copy: TsResult): Joint<S> {
    Joint(WorkerClient.INITIAL, app.initial, map[], copy)
  }

  /** As many requests are served as replies were made, and the copy has taken those that were delivered. */
  ghost predicate InStep<S, E, F, V>(app: App<S, E, F, V>, calls: seq<Call<E>>, copy: TsResult, j: Joint<S>) {
    var c := j.client;
    && WorkerClient.Synced(c) && WorkerClient.InOrder(c) && c.next <= |calls|
    && |c.settled| + |c.replies| <= |calls|
    && j.engine == StateAfter(app, calls, |c.settled| + |c.replies|)
    && j.copy == CopyAfter(app, calls, copy, |c.settled|)
    && (c.replies != [] ==>
          && |c.settled| < |calls| && |c.settled| in j.contents
          && j.contents[|c.settled|] == ContentOf(app, calls, |c.settled|))
  }

  lemma StepInStep<S, E, F, V>(app: App<S, E, F, V>, calls: seq<Call<E>>, copy: TsResult, j: Joint<S>,
        step: WorkerClient.Step)
    requires InStep(app, calls, copy, j) && !step.Fault? && JointNext(app, calls, j, step).Some?
    ensures InStep(app, calls, copy, JointNext(app, calls, j, step).value)
  {
    hide InStep, JointNext;
    match step
    case Enqueue => EnqueueInStep(app, calls, copy, j);
    case Answer(k) => AnswerInStep(app, calls, copy, j, k);
    case Deliver => DeliverInStep(app, calls, copy, j);
  }

  lemma EnqueueInStep<S, E, F, V>(app: App<S, E, F, V>, calls: seq<Call<E>>, copy: TsResult, j: Joint<S>)
    requires InStep(app, calls, copy, j) && JointNext(app, calls, j, WorkerClient.Enqueue).Some?
    ensures InStep(app, calls, copy, JointNext(app, calls, j, WorkerClient.Enqueue).value)
  {
    hide WorkerClient.Synced, WorkerClient.InOrder, StateAfter, CopyAfter;
    WorkerClient.StepSynced(j.client, WorkerClient.Enqueue);
    WorkerClient.StepInOrder(j.client, WorkerClient.Enqueue);
  }

  lemma AnswerInStep<S, E, F, V>(app: App<S, E, F, V>, calls: seq<Call<E>>, copy: TsResult, j: Joint<S>, k: nat)
    requires InStep(app, calls, copy, j) && JointNext(app, calls, j, WorkerClient.Answer(k)).Some?
    ensures InStep(app, calls, copy, JointNext(app, calls, j, WorkerClient.Answer(k)).value)
  {
    hide WorkerClient.Synced, WorkerClient.InOrder, ServeCall, CopyAfter;
    WorkerClient.StepSynced(j.client, WorkerClient.Answer(k));
    WorkerClient.StepInOrder(j.client, WorkerClient.Answer(k));
    AnswerCounts(j.client, k);
    WorkerClient.FirstWaits(j.client);
  }

  lemma DeliverInStep<S, E, F, V>(app: App<S, E, F, V>, calls: seq<Call<E>>, copy: TsResult, j: Joint<S>)
    requires InStep(app, calls, copy, j) && JointNext(app, calls, j, WorkerClient.Deliver).Some?
    ensures InStep(app, calls, copy, JointNext(app, calls, j, WorkerClient.Deliver).value)
  {
    hide WorkerClient.Synced, WorkerClient.InOrder, ServeCall, StateAfter, Taken;
    WorkerClient.StepSynced(j.client, WorkerClient.Deliver);
    WorkerClient.StepInOrder(j.client, WorkerClient.Deliver);
    DeliverCounts(j.client);
    WorkerClient.FirstWaits(j.client);
  }

  lemma AnswerCounts(c: WorkerClient.State, k: nat)
    requires WorkerClient.Synced(c) && k < |c.atWorker|
    ensures
      var next := WorkerClient.Next(c, WorkerClient.Answer(k)).value;
      && c.replies == [] && c.atWorker[k] == c.jobs[0] && c.jobs != []
      && next.replies == [c.jobs[0]] && next.settled == c.settled && next.next == c.next
  {
    WorkerClient.OneMessageOut(c);
  }

  lemma DeliverCounts(c: WorkerClient.State)
    requires WorkerClient.Synced(c) && c.replies != []
    ensures
      var next := WorkerClient.Next(c, WorkerClient.Deliver).value;
      && c.jobs != [] && c.replies == [c.jobs[0]]
      && next.replies == [] && |next.settled| == |c.settled| + 1 && next.next == c.next
  {
    WorkerClient.OneMessageOut(c);
  }

  lemma {:induction false} RunInStep<S, E, F, V>(app: App<S, E, F, V>, calls: seq<Call<E>>, copy: TsResult, j: Joint<S>,
                                                 steps: seq<WorkerClient.Step>)
    requires InStep(app, calls, copy, j) && WorkerClient.Fault !in steps && JointRun(app, calls, j, steps).Some?
    ensures InStep(app, calls, copy, JointRun(app, calls, j, steps).value)
    decreases |steps|
  {
    hide InStep, JointNext;
    if steps == [] {
    } else {
      assert steps[0] in steps;
      StepInStep(app, calls, copy, j, steps[0]);
      RunInStep(app, calls, copy, JointNext(app, calls, j, steps[0]).value, steps[1..]);
    }
  }

  lemma BeginsInStep<S, E, F, V>(app: App<S, E, F, V>, calls: seq<Call<E>>, copy: TsResult)
    ensures InStep(app, calls, copy, Begin(app, copy))
  {
  }

  /**
   In every run without faults, however messages and replies interleave, the copy is what the delivered replies make
   of it one after the other; and after a first request that starts over, it equalled the engine after every reply
   exactly when no request lost patches.
   */
  lemma ReplicaFollows<S, E, F, V>(app: App<S, E, F, V>, calls: seq<Call<E>>, copy: TsResult,
        steps: seq<WorkerClient.Step>)
    requires calls != [] && calls[0].Start?
    requires WorkerClient.Fault !in steps && JointRun(app, calls, Begin(app, copy), steps).Some?
    ensures
      var j := JointRun(app, calls, Begin(app, copy), steps).value;
      var n := |j.client.settled|;
      && n + |j.client.replies| <= |calls|
      && j.copy == CopyAfter(app, calls, copy, n)
      && j.engine == StateAfter(app, calls, n + |j.client.replies|)
      && ((forall m :: 1 <= m <= n ==> CopyIsRight(app, calls, copy, m))
           <==> (forall k :: 0 <= k < n ==> LosesNothing(app, calls, k)))
  {
    hide CopyIsRight, LosesNothing, JointRun, StateAfter;
    BeginsInStep(app, calls, copy);
    RunInStep(app, calls, copy, Begin(app, copy), steps);
    CopyRightExactly(app, calls, copy, |JointRun(app, calls, Begin(app, copy), steps).value.client.settled|);
  }

  // ---------- every session can be served ----------

  /** The first `n` requests are made, answered and delivered, and nothing is out. */
  ghost predicate Idle<S>(j: Joint<S>, n: nat) {
    var c := j.client;
    c.next == n && c.jobs == [] && !c.busy && c.atWorker == [] && c.replies == [] && |c.settled| == n
  }

  /** One more request: it is made, answered and delivered. */
  lemma OneServed<S, E, F, V>(app: App<S, E, F, V>, calls: seq<Call<E>>, copy: TsResult, j: Joint<S>, n: nat)
    requires InStep(app, calls, copy, j) && Idle(j, n) && n < |calls| && ContentOf(app, calls, n) != Update(Waiting)
    ensures
      var steps := [WorkerClient.Enqueue, WorkerClient.Answer(0), WorkerClient.Deliver];
      JointRun(app, calls, j, steps).Some? && Idle(JointRun(app, calls, j, steps).value, n + 1)
  {
    hide ServeCall, CopyAfter, StateAfter, Taken;
    var made := JointNext(app, calls, j, WorkerClient.Enqueue).value;
    assert made.client.atWorker == [n] && made.client.jobs == [n];
    var answered := JointNext(app, calls, made, WorkerClient.Answer(0)).value;
    assert answered.client.replies == [n] && answered.client.atWorker == [];
    ThreeSteps(app, calls, j, WorkerClient.Enqueue, WorkerClient.Answer(0), WorkerClient.Deliver);
  }

  lemma ThreeSteps<S, E, F, V>(app: App<S, E, F, V>, calls: seq<Call<E>>, j: Joint<S>, a: WorkerClient.Step,
        b: WorkerClient.Step, c: WorkerClient.Step)
    requires JointNext(app, calls, j, a).Some?
    requires JointNext(app, calls, JointNext(app, calls, j, a).value, b).Some?
    ensures JointRun(app, calls, j, [a, b, c])
      == JointNext(app, calls, JointNext(app, calls, JointNext(app, calls, j, a).value, b).value, c)
  {
    hide JointNext;
    var k := JointNext(app, calls, JointNext(app, calls, j, a).value, b).value;
    assert [a, b, c][1..] == [b, c] && [b, c][1..] == [c] && [c][1..] == [];
    assert JointRun(app, calls, k, [c]) == JointNext(app, calls, k, c);
    assert JointRun(app, calls, JointNext(app, calls, j, a).value, [b, c]) == JointRun(app, calls, k, [c]);
  }

  lemma {:induction false} JointConcat<S, E, F, V>(app: App<S, E, F, V>, calls: seq<Call<E>>, j: Joint<S>,
                                                   a: seq<WorkerClient.Step>, b: seq<WorkerClient.Step>)
    requires JointRun(app, calls, j, a).Some?
    ensures JointRun(app, calls, j, a + b) == JointRun(app, calls, JointRun(app, calls, j, a).value, b)
    decreases |a|
  {
    hide JointNext;
    if a == [] {
      assert a + b == b;
    } else {
      assert (a + b)[0] == a[0] && (a + b)[1..] == a[1..] + b;
      JointConcat(app, calls, JointNext(app, calls, j, a[0]).value, a[1..], b);
    }
  }

  /** Requests whose effects all end can be served to the last: some run without faults delivers every reply. */
  lemma {:induction false} AllServed<S, E, F, V>(app: App<S, E, F, V>, calls: seq<Call<E>>, copy: TsResult, n: nat)
    returns (steps: seq<WorkerClient.Step>)
    requires n <= |calls| && forall k :: 0 <= k < n ==> ContentOf(app, calls, k) != Update(Waiting)
    ensures WorkerClient.Fault !in steps && JointRun(app, calls, Begin(app, copy), steps).Some?
    ensures Idle(JointRun(app, calls, Begin(app, copy), steps).value, n)
    decreases n
  {
    hide JointNext, InStep, ContentOf, Idle;
    if n == 0 {
      steps := [];
      BeginsIdle<S, E, F, V>(app, copy);
    } else {
      var before := AllServed(app, calls, copy, n - 1);
      var j := JointRun(app, calls, Begin(app, copy), before).value;
      BeginsInStep(app, calls, copy);
      RunInStep(app, calls, copy, Begin(app, copy), before);
      OneServed(app, calls, copy, j, n - 1);
      var more := [WorkerClient.Enqueue, WorkerClient.Answer(0), WorkerClient.Deliver];
      steps := before + more;
      JointConcat(app, calls, Begin(app, copy), before, more);
    }
  }

  lemma BeginsIdle<S, E, F, V>(app: App<S, E, F, V>, copy: TsResult)
    ensures Idle(Begin(app, copy), 0)
  {
  }
}
