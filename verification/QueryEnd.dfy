/** What is left of a query when it ends. */
module QueryEnd {
  import opened ChunkScheduler
  import opened Wrappers

  // The query waits for all its consumers together: the wait ends when every consumer is done, or at the first one that
  // fails. What comes next, which may be the next query, does not wait for the other consumers.

  predicate Failed(c: Consumer) {
    c.LoadFailed? || c.TaskFailed?
  }

  predicate WaitOver<P>(s: State<P>) {
    || (exists i :: 0 <= i < |s.consumers| && Failed(s.consumers[i]))
    || (forall i :: 0 <= i < |s.consumers| ==> s.consumers[i].Done?)
  }

  /** The step is the one that ends the wait. */
  predicate Ends<P>(s: State<P>, step: Step, exec: ChunkId -> P) {
    !WaitOver(s) && Next(s, step, exec).Some? && WaitOver(Next(s, step, exec).value)
  }

  /** No consumer of the query can do anything any more. */
  ghost predicate AtRest<P>(s: State<P>, exec: ChunkId -> P) {
    forall step: Step :: Next(s, step, exec) == None
  }

  /** All consumers but one are done. */
  predicate LastWorking(cs: seq<Consumer>, i: nat) {
    forall j :: 0 <= j < |cs| && j != i ==> cs[j].Done?
  }

  lemma RestIsFinished<P>(s: State<P>, exec: ChunkId -> P)
    ensures AtRest(s, exec) <==> forall i :: 0 <= i < |s.consumers| ==> Finished(s.consumers[i])
  {
    hide Stage;
    forall i | 0 <= i < |s.consumers|
      ensures Finished(s.consumers[i]) <==> forall step: Step :: step.i == i ==> Next(s, step, exec) == None
    {
      NeverStuck(s, i, exec);
    }
    forall step: Step | step.i >= |s.consumers| ensures Next(s, step, exec) == None {}
  }

  /**
   When the wait for a query ends, its consumers are at rest exactly when none of them failed or the one that failed was
   the last one working.
   */
  lemma QuietEnd<P>(s: State<P>, step: Step, exec: ChunkId -> P)
    requires Ends(s, step, exec)
    ensures
      var s' := Next(s, step, exec).value;
      AtRest(s', exec) <==> (step.PayloadFails? || step.TaskThrows? ==> LastWorking(s.consumers, step.i))
  {
    hide Stage, AtRest;
    var cs, ds := s.consumers, Next(s, step, exec).value.consumers;
    RestIsFinished(Next(s, step, exec).value, exec);
    assert forall j :: 0 <= j < |cs| && j != step.i ==> ds[j] == cs[j];
    if step.PayloadFails? || step.TaskThrows? {
      assert forall j :: 0 <= j < |cs| ==> !Failed(cs[j]);
    } else {
      assert !Failed(ds[step.i]);
    }
  }

  // ---------- what a failed query goes on to do ----------

  /** A consumer that is done has seen the end of the queue. */
  predicate DoneAtEnd<P>(s: State<P>) {
    && s.q.dispatch <= s.q.nchunks
    && forall i :: 0 <= i < |s.consumers| && s.consumers[i].Done? ==> s.q.dispatch == s.q.nchunks
  }

  lemma {:induction false} RunDoneAtEnd<P>(s: State<P>, steps: seq<Step>, exec: ChunkId -> P)
    requires DoneAtEnd(s) && Run(s, steps, exec).Some?
    requires forall j :: 0 <= j < |steps| ==> !steps[j].TaskReturnsStop?
    ensures DoneAtEnd(Run(s, steps, exec).value) && Run(s, steps, exec).value.q.nchunks == s.q.nchunks
    ensures |Run(s, steps, exec).value.consumers| == |s.consumers|
    decreases |steps|
  {
    if steps == [] {
    } else {
      hide Stage;
      var s' := Next(s, steps[0], exec).value;
      assert DoneAtEnd(s');
      RunDoneAtEnd(s', steps[1..], exec);
    }
  }

  lemma {:induction false} StaysUnfailed<P>(s: State<P>, steps: seq<Step>, i: nat, exec: ChunkId -> P)
    requires Run(s, steps, exec).Some? && i < |s.consumers| && !Failed(s.consumers[i])
    requires forall j :: 0 <= j < |steps| ==> !steps[j].PayloadFails? && !steps[j].TaskThrows?
    ensures |Run(s, steps, exec).value.consumers| == |s.consumers| && !Failed(Run(s, steps, exec).value.consumers[i])
    decreases |steps|
  {
    if steps == [] {
    } else {
      hide Stage;
      StaysUnfailed(Next(s, steps[0], exec).value, steps[1..], i, exec);
    }
  }

  /**
   A failure that leaves a consumer working does not stop the query: if nothing else fails, every chunk that is left is
   still dispatched before the consumers come to rest.
   */
  lemma FailedQueryReadsOn<P>(
      nchunks: nat, cap: nat, consumers: nat, before: seq<Step>, last: Step, after: seq<Step>, exec: ChunkId -> P)
    requires forall j :: 0 <= j < |before| ==> !before[j].TaskReturnsStop?
    requires Run(Initial(nchunks, cap, consumers), before, exec).Some?
    requires Ends(Run(Initial(nchunks, cap, consumers), before, exec).value, last, exec)
    requires
      var s := Run(Initial(nchunks, cap, consumers), before, exec).value;
      var ended := Next(s, last, exec).value;
      && (last.PayloadFails? || last.TaskThrows?) && !LastWorking(s.consumers, last.i)
      && Smooth(after) && Run(ended, after, exec).Some? && AtRest(Run(ended, after, exec).value, exec)
    ensures
      var ended := Next(Run(Initial(nchunks, cap, consumers), before, exec).value, last, exec).value;
      Run(ended, after, exec).value.q.dispatch == nchunks
  {
    hide Stage, AtRest;
    var s := Run(Initial(nchunks, cap, consumers), before, exec).value;
    RunDoneAtEnd(Initial(nchunks, cap, consumers), before, exec);
    var ended := Next(s, last, exec).value;
    var i :| 0 <= i < |s.consumers| && i != last.i && !s.consumers[i].Done?;
    assert !Failed(s.consumers[i]);
    assert DoneAtEnd(ended);
    RunDoneAtEnd(ended, after, exec);
    StaysUnfailed(ended, after, i, exec);
    RestIsFinished(Run(ended, after, exec).value, exec);
  }

  lemma TwoChunkQueue()
    ensures Begin(Queue(2, 4, 0, 0, {})) == (Queue(2, 4, 2, 1, {0, 1}), Some(0))
    ensures End(Queue(2, 4, 2, 1, {0, 1}), 0) == Queue(2, 4, 2, 1, {1})
    ensures Begin(Queue(2, 4, 2, 1, {1})) == (Queue(2, 4, 2, 2, {1}), Some(1))
    ensures End(Queue(2, 4, 2, 2, {1}), 1) == Queue(2, 4, 2, 2, {})
  {
    assert Stage(Queue(2, 4, 1, 0, {0})) == Queue(2, 4, 2, 0, {0, 1});
    assert {0, 1} - {0} == {1};
  }

  /** Two consumers and two chunks: the first task fails and ends the wait, and the second is started after that. */
  lemma StartedAfterTheEnd()
    ensures
      var exec := (k: ChunkId) => k;
      var s := Run(Initial(2, 4, 2), [Ask(0), PayloadArrives(0), Start(0)], exec);
      && s.Some? && Ends(s.value, TaskThrows(0), exec)
      && var ended := Next(s.value, TaskThrows(0), exec).value;
         var later := Run(ended, [Ask(1), PayloadArrives(1), Start(1)], exec);
         ended.delivered == [0] && later.Some? && later.value.delivered == [0, 1]
  {
    hide Begin, End, Stage;
    TwoChunkQueue();
    var exec := (k: ChunkId) => k;
    var s1 := State(Queue(2, 4, 2, 1, {0, 1}), [Loading(0), Ready], [], map[]);
    var s3 := State(Queue(2, 4, 2, 1, {1}), [Running(0), Ready], [0], map[]);
    assert Initial<ChunkId>(2, 4, 2).consumers == [Ready, Ready];
    assert [Ready, Ready][0 := Loading(0)] == [Loading(0), Ready];
    assert Next(Initial(2, 4, 2), Ask(0), exec) == Some(s1);
    ThreeSteps(Initial(2, 4, 2), Ask(0), PayloadArrives(0), Start(0), exec);
    var s2 := State(Queue(2, 4, 2, 1, {1}), [Loaded(0), Ready], [], map[]);
    assert [Loading(0), Ready][0 := Loaded(0)] == [Loaded(0), Ready];
    assert Next(s1, PayloadArrives(0), exec) == Some(s2);
    assert [Loaded(0), Ready][0 := Running(0)] == [Running(0), Ready] && [] + [0] == [0];
    assert Next(s2, Start(0), exec) == Some(s3);
    assert Run(Initial(2, 4, 2), [Ask(0), PayloadArrives(0), Start(0)], exec) == Some(s3);
    var s4 := s3.(consumers := [TaskFailed(0), Ready]);
    assert [Running(0), Ready][0 := TaskFailed(0)] == [TaskFailed(0), Ready];
    assert Next(s3, TaskThrows(0), exec) == Some(s4);
    assert s4.consumers[0].TaskFailed?;
    ThreeSteps(s4, Ask(1), PayloadArrives(1), Start(1), exec);
  }

  lemma ThreeSteps<P>(s: State<P>, a: Step, b: Step, c: Step, exec: ChunkId -> P)
    requires Next(s, a, exec).Some? && Next(Next(s, a, exec).value, b, exec).Some?
    ensures Run(s, [a, b, c], exec) == Next(Next(Next(s, a, exec).value, b, exec).value, c, exec)
  {
    hide Next;
    assert [a, b, c][1..] == [b, c] && [b, c][1..] == [c] && [c][1..] == [];
    var s2 := Next(Next(s, a, exec).value, b, exec).value;
    assert Run(s2, [c], exec) == Next(s2, c, exec);
    assert Run(Next(s, a, exec).value, [b, c], exec) == Run(s2, [c], exec);
  }
}
