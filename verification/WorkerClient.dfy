/** The request queue between the main thread and the engine worker, under any delivery order. */
module WorkerClient {
  import opened Wrappers

  /** Requests are numbered in the order they were made; `k` is also what the reply to request `k` carries. */
  type Id = nat

  /**
   The client's queue and flag, the messages the worker holds, the replies on their way back, and
   the record of which job was settled with which reply.
   */
  datatype State = State(
    next: Id,
    jobs: seq<Id>,
    busy: bool,
    atWorker: seq<Id>,
    replies: seq<Id>,
    settled: seq<(Id, Id)>)

  datatype Step =
    | Enqueue            // a job is pushed
    | Answer(k: nat)     // the worker finishes the k-th message it holds, in any order
    | Deliver            // the oldest reply reaches the message handler
    | Fault              // the worker's error handler runs

  const INITIAL := State(0, [], false, [], [], [])

  function Pump(s: State): State {
    if s.busy || s.jobs == [] then s
    else s.(busy := true, atWorker := s.atWorker + [s.jobs[0]])
  }

  /** One step, or nothing when the step is not possible. */
  function Next(s: State, step: Step): Option<State> {
    match step
    case Enqueue => Some(Pump(s.(next := s.next + 1, jobs := s.jobs + [s.next])))
    case Answer(k) =>
      if k < |s.atWorker| then
        Some(s.(atWorker := s.atWorker[..k] + s.atWorker[k + 1..], replies := s.replies + [s.atWorker[k]]))
      else None
    case Deliver =>
      if s.replies == [] then None
      else if s.jobs == [] then Some(s.(replies := s.replies[1..], busy := false))
      else Some(Pump(s.(replies := s.replies[1..], jobs := s.jobs[1..], busy := false,
                        settled := s.settled + [(s.jobs[0], s.replies[0])])))
    case Fault => Some(s.(jobs := [], busy := false))
  }

  function Run(s: State, steps: seq<Step>): Option<State>
    decreases |steps|
  {
    if steps == [] then Some(s)
    else
      match Next(s, steps[0])
      case None => None
      case Some(s') => Run(s', steps[1..])
  }

  /** Every job so far was settled with its own reply. */
  predicate Matched(s: State) {
    forall i :: 0 <= i < |s.settled| ==> s.settled[i].0 == s.settled[i].1
  }

  /** The messages out are one, that of the oldest waiting job, while busy; and none otherwise. */
  predicate Synced(s: State) {
    && Matched(s)
    && (s.busy <==> s.jobs != [])
    && s.atWorker + s.replies == (if s.busy then [s.jobs[0]] else [])
    && (forall j :: 0 <= j < |s.jobs| ==> s.jobs[j] == s.next - |s.jobs| + j)
    && |s.jobs| <= s.next
  }

  /** No step is an error that finds a request in flight. */
  predicate QuietFaults(s: State, steps: seq<Step>)
    decreases |steps|
  {
    steps == [] ||
    (!(steps[0] == Fault && s.busy)
     && match Next(s, steps[0])
        case None => true
        case Some(s') => QuietFaults(s', steps[1..]))
  }

  /** The one message out is either at the worker or on its way back. */
  lemma OneMessageOut(s: State)
    requires Synced(s)
    ensures |s.atWorker| + |s.replies| <= 1
    ensures !s.busy ==> s.atWorker == [] && s.replies == []
    ensures s.atWorker != [] ==> s.busy && s.atWorker == [s.jobs[0]] && s.replies == []
    ensures s.replies != [] ==> s.busy && s.replies == [s.jobs[0]] && s.atWorker == []
  {
    var out := s.atWorker + s.replies;
    assert |out| == |s.atWorker| + |s.replies|;
    if s.atWorker != [] { assert s.atWorker[0] == out[0]; }
    if s.replies != [] { assert s.replies[0] == out[|s.atWorker|]; }
  }

  lemma EnqueueSynced(s: State)
    requires Synced(s)
    ensures Synced(Next(s, Enqueue).value)
  {
    OneMessageOut(s);
    if s.busy {
      assert (s.jobs + [s.next])[0] == s.jobs[0];
    } else {
      assert s.jobs + [s.next] == [s.next];
    }
  }

  /** A delivery settles the oldest job, whose reply it is, and posts the next one. */
  lemma DeliverSynced(s: State)
    requires Synced(s) && s.replies != []
    ensures Synced(Next(s, Deliver).value)
    ensures s.busy && Next(s, Deliver).value.settled == s.settled + [(s.jobs[0], s.jobs[0])]
    ensures Next(s, Deliver).value.jobs == s.jobs[1..]
  {
    OneMessageOut(s);
  }

  lemma AnswerSynced(s: State, k: nat)
    requires Synced(s) && k < |s.atWorker|
    ensures Synced(Next(s, Answer(k)).value)
  {
    OneMessageOut(s);
  }

  lemma StepSynced(s: State, step: Step)
    requires Synced(s) && !(step == Fault && s.busy) && Next(s, step).Some?
    ensures Synced(Next(s, step).value)
  {
    match step
    case Enqueue => EnqueueSynced(s);
    case Answer(k) => AnswerSynced(s, k);
    case Deliver => DeliverSynced(s);
    case Fault => OneMessageOut(s);
  }

  /**
   As long as every error finds no request in flight, one request is in flight at a time and every
   reply settles the job it answers.
   */
  lemma {:induction false} RunSynced(s: State, steps: seq<Step>)
    requires Synced(s) && QuietFaults(s, steps) && Run(s, steps).Some?
    ensures Synced(Run(s, steps).value)
    decreases |steps|
  {
    if steps == [] {
    } else {
      StepSynced(s, steps[0]);
      RunSynced(Next(s, steps[0]).value, steps[1..]);
    }
  }

  /** The settled jobs are the first ones made, in order, each with its own reply; the rest wait. */
  predicate InOrder(s: State) {
    && |s.settled| + |s.jobs| == s.next
    && forall i :: 0 <= i < |s.settled| ==> s.settled[i] == (i, i)
  }

  lemma StepInOrder(s: State, step: Step)
    requires Synced(s) && InOrder(s) && step != Fault && Next(s, step).Some?
    ensures InOrder(Next(s, step).value)
  {
    hide Synced;
    if step == Deliver {
      OneMessageOut(s);
      DeliverSynced(s);
      FirstWaits(s);
    }
  }

  lemma FirstWaits(s: State)
    requires Synced(s) && InOrder(s) && s.jobs != []
    ensures s.jobs[0] == |s.settled|
  {
  }

  lemma {:induction false} SettledInOrder(s: State, steps: seq<Step>)
    requires Synced(s) && InOrder(s) && Fault !in steps && Run(s, steps).Some?
    ensures InOrder(Run(s, steps).value)
    decreases |steps|
  {
    if steps == [] {
    } else {
      assert steps[0] in steps;
      StepSynced(s, steps[0]);
      StepInOrder(s, steps[0]);
      SettledInOrder(Next(s, steps[0]).value, steps[1..]);
    }
  }

  /** From the start, without errors, the k-th reply settles the k-th job. */
  lemma KthReplySettlesKthJob(steps: seq<Step>)
    requires Fault !in steps && Run(INITIAL, steps).Some?
    ensures
      var s := Run(INITIAL, steps).value;
      && |s.atWorker| + |s.replies| <= 1
      && forall i :: 0 <= i < |s.settled| ==> s.settled[i] == (i, i)
  {
    SettledInOrder(INITIAL, steps);
    NoFaultQuiet(INITIAL, steps);
    RunSynced(INITIAL, steps);
    OneMessageOut(Run(INITIAL, steps).value);
  }

  lemma {:induction false} NoFaultQuiet(s: State, steps: seq<Step>)
    requires Fault !in steps
    ensures QuietFaults(s, steps)
    decreases |steps|
  {
    if steps != [] && Next(s, steps[0]).Some? { NoFaultQuiet(Next(s, steps[0]).value, steps[1..]); }
  }

  // ---------- an error with a request in flight ----------

  /** No continuation without further errors ever settles a job with another job's reply. */
  ghost predicate RoutesWell(s: State) {
    forall steps :: Fault !in steps && Run(s, steps).Some? ==> Matched(Run(s, steps).value)
  }

  /** After an error the client still routes replies correctly exactly when nothing was in flight. */
  lemma FaultRouting(s: State)
    requires Synced(s)
    ensures RoutesWell(Next(s, Fault).value) <==> !s.busy
  {
    var f := Next(s, Fault).value;
    if !s.busy {
      assert Synced(f);
      forall steps | Fault !in steps && Run(f, steps).Some? ensures Matched(Run(f, steps).value) {
        NoFaultQuiet(f, steps);
        RunSynced(f, steps);
      }
    } else {
      StaleReply(s);
    }
  }

  /** The reply to a dropped request settles the next job made. */
  lemma StaleReply(s: State)
    requires Synced(s) && s.busy
    ensures !RoutesWell(Next(s, Fault).value)
  {
    hide Synced, Matched, RoutesWell;
    OneMessageOut(s);
    MessageOut(s);
    if s.atWorker == [] { StaleOnItsWay(s); } else { StaleAtWorker(s); }
  }

  lemma MessageOut(s: State)
    requires Synced(s) && s.busy
    ensures s.jobs != [] && s.jobs[0] < s.next && (s.atWorker != [] || s.replies != [])
  {
  }

  /** The reply is on its way already. */
  lemma StaleOnItsWay(s: State)
    requires s.jobs != [] && s.jobs[0] < s.next && s.atWorker == [] && s.replies == [s.jobs[0]]
    ensures !RoutesWell(Next(s, Fault).value)
  {
    var f := Next(s, Fault).value;
    var e := Next(f, Enqueue).value;
    var d := Next(e, Deliver).value;
    RunTwo(f, Enqueue, Deliver);
    assert d.settled[|s.settled|] == (s.next, s.jobs[0]);
    assert Fault !in [Enqueue, Deliver] && !Matched(Run(f, [Enqueue, Deliver]).value);
  }

  /** The worker has yet to answer. */
  lemma StaleAtWorker(s: State)
    requires s.jobs != [] && s.jobs[0] < s.next && s.atWorker == [s.jobs[0]] && s.replies == []
    ensures !RoutesWell(Next(s, Fault).value)
  {
    var f, steps := Next(s, Fault).value, [Enqueue, Answer(0), Deliver];
    var e := Next(f, Enqueue).value;
    var a := Next(e, Answer(0)).value;
    var d := Next(a, Deliver).value;
    RunTwo(e, Answer(0), Deliver);
    assert steps[1..] == [Answer(0), Deliver];
    assert Run(f, steps) == Some(d);
    assert d.settled[|s.settled|] == (s.next, s.jobs[0]);
    assert Fault !in steps && !Matched(d);
  }

  lemma RunTwo(s: State, x: Step, y: Step)
    requires Next(s, x).Some? && Next(Next(s, x).value, y).Some?
    ensures Run(s, [x, y]) == Next(Next(s, x).value, y)
  {
    var s' := Next(s, x).value;
    assert [x, y][1..] == [y] && [y][1..] == [];
    assert Run(s', [y]) == Next(s', y);
  }

  // ---------- the client object ----------

  /** What the outside sees of a client: messages posted, and jobs settled with replies. */
  class Client {
    var jobs: seq<Id>
    var busy: bool
    var posted: seq<Id>
    var settled: seq<(Id, Id)>
    var next: Id

    /** The client's own part of a system state. */
    ghost predicate Shows(s: State)
      reads this
    {
      s.jobs == jobs && s.busy == busy && s.settled == settled && s.next == next
    }

    constructor ()
      ensures Shows(INITIAL) && posted == []
    {
      jobs, busy, posted, settled, next := [], false, [], [], 0;
    }

    method PumpJobs()
      modifies this`busy, this`posted
      ensures old(posted) <= posted
      ensures forall s :: old(Shows(s)) ==>
        Shows(Pump(s)) && Pump(s).atWorker == s.atWorker + posted[|old(posted)|..]
    {
      if busy || jobs == [] { return; }
      busy := true;
      posted := posted + [jobs[0]];
    }

    method EnqueueJob()
      modifies this
      ensures old(posted) <= posted
      ensures forall s :: old(Shows(s)) ==>
        var s' := Next(s, Enqueue).value;
        Shows(s') && s'.atWorker == s.atWorker + posted[|old(posted)|..]
    {
      ghost var before := posted;
      jobs := jobs + [next];
      next := next + 1;
      label pushed:
      PumpJobs();
      forall s | old(Shows(s)) ensures
        var s' := Next(s, Enqueue).value;
        Shows(s') && s'.atWorker == s.atWorker + posted[|before|..]
      {
        var mid := s.(next := s.next + 1, jobs := s.jobs + [s.next]);
        assert old@pushed(Shows(mid));
      }
    }

    method OnMessage(reply: Id)
      modifies this
      ensures old(posted) <= posted
      ensures forall s :: old(Shows(s)) && s.replies != [] && s.replies[0] == reply ==>
        var s' := Next(s, Deliver).value;
        Shows(s') && s'.atWorker == s.atWorker + posted[|old(posted)|..]
    {
      ghost var before := posted;
      if jobs == [] {
        busy := false;
        return;
      }
      var job := jobs[0];
      jobs := jobs[1..];
      settled := settled + [(job, reply)];
      busy := false;
      label shifted:
      PumpJobs();
      forall s | old(Shows(s)) && s.replies != [] && s.replies[0] == reply ensures
        var s' := Next(s, Deliver).value;
        Shows(s') && s'.atWorker == s.atWorker + posted[|before|..]
      {
        var mid := s.(replies := s.replies[1..], jobs := s.jobs[1..], busy := false,
                      settled := s.settled + [(s.jobs[0], s.replies[0])]);
        assert old@shifted(Shows(mid));
      }
    }

    method OnError()
      modifies this
      ensures forall s :: old(Shows(s)) ==> Shows(Next(s, Fault).value)
      ensures posted == old(posted)
    {
      jobs := [];
      busy := false;
    }
  }
}
