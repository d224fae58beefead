/** One query at a time. */
module ContextLock {
  import opened Wrappers

  // The promise chain of a context. A call waits for the chain it finds, and leaves behind a chain that
  // resolves when the found chain has and its own gate opens.

  datatype Phase = Waiting | Running | Returned | Threw

  /** One call: where it stands, whether its gate is open, whether the chain it left is resolved. */
  datatype Call = Call(phase: Phase, released: bool, chained: bool)

  /** The calls in the order they were made. */
  type State = seq<Call>

  datatype Step =
    | Enter             // a new call takes the chain and replaces it
    | Start(i: nat)     // the chain found by call i is resolved, so it runs
    | Finish(i: nat, throws: bool)  // its query ends; the gate opens on both ways out
    | Propagate(i: nat) // the chain left by call i resolves

  /** The chain found by call `i`: resolved for the first call, otherwise left by the call before. */
  predicate PrevResolved(s: State, i: nat)
    requires i < |s|
  {
    i == 0 || s[i - 1].chained
  }

  function Next(s: State, step: Step): Option<State> {
    match step
    case Enter => Some(s + [Call(Waiting, false, false)])
    case Start(i) =>
      if i < |s| && s[i].phase == Waiting && PrevResolved(s, i)
      then Some(s[i := s[i].(phase := Running)]) else None
    case Finish(i, throws) =>
      if i < |s| && s[i].phase == Running
      then Some(s[i := s[i].(phase := if throws then Threw else Returned, released := true)]) else None
    case Propagate(i) =>
      if i < |s| && !s[i].chained && s[i].released && PrevResolved(s, i)
      then Some(s[i := s[i].(chained := true)]) else None
  }

  function Run(s: State, steps: seq<Step>): Option<State>
    decreases |steps|
  {
    if steps == [] then Some(s)
    else
      match Next(s, steps[0])
      case None => None
      case Some(s') => Run(s', steps[1..])
  }

  predicate Ended(c: Call) {
    c.phase == Returned || c.phase == Threw
  }

  /**
   A gate is open exactly when its query ended; a resolved chain has an open gate and a resolved
   chain before it; a call that has started found a resolved chain.
   */
  predicate CallOk(s: State, i: nat)
    requires i < |s|
  {
    && (s[i].released <==> Ended(s[i]))
    && (s[i].chained ==> s[i].released && PrevResolved(s, i))
    && (s[i].phase != Waiting ==> PrevResolved(s, i))
  }

  predicate Inv(s: State) {
    forall i {:trigger CallOk(s, i)} :: 0 <= i < |s| ==> CallOk(s, i)
  }

  lemma StepKeeps(s: State, step: Step)
    requires Inv(s) && Next(s, step).Some?
    ensures Inv(Next(s, step).value)
  {
    var s' := Next(s, step).value;
    forall i | 0 <= i < |s'| ensures CallOk(s', i) {
      if i < |s| { assert CallOk(s, i); }
    }
  }

  lemma {:induction false} ChainedBefore(s: State, i: nat, j: nat)
    requires Inv(s) && i <= j < |s| && s[j].chained
    ensures s[i].chained
    decreases j - i
  {
    if i < j {
      assert CallOk(s, j);
      ChainedBefore(s, i, j - 1);
    }
  }

  lemma {:induction false} RunKeeps(s: State, steps: seq<Step>)
    requires Inv(s) && Run(s, steps).Some?
    ensures Inv(Run(s, steps).value)
    decreases |steps|
  {
    if steps == [] {
    } else {
      StepKeeps(s, steps[0]);
      RunKeeps(Next(s, steps[0]).value, steps[1..]);
    }
  }

  /**
   Whatever the interleaving, and whether queries return or throw: at most one query runs, and a
   query has started only when every earlier call has ended.
   */
  lemma OneAtATimeInCallOrder(steps: seq<Step>)
    requires Run([], steps).Some?
    ensures
      var s := Run([], steps).value;
      && (forall i, j :: 0 <= i < j < |s| && s[j].phase != Waiting ==> Ended(s[i]))
      && (forall i, j :: 0 <= i < |s| && 0 <= j < |s| && s[i].phase == Running && s[j].phase == Running ==> i == j)
  {
    RunKeeps([], steps);
    var s := Run([], steps).value;
    forall i, j | 0 <= i < j < |s| && s[j].phase != Waiting ensures Ended(s[i]) {
      assert CallOk(s, j);
      ChainedBefore(s, i, j - 1);
      assert CallOk(s, i);
    }
  }

  // ---------- calls that are made one after the other ----------

  lemma {:induction false} RunMore(s: State, a: seq<Step>, b: seq<Step>)
    requires Run(s, a).Some?
    ensures Run(s, a + b) == Run(Run(s, a).value, b)
    decreases |a|
  {
    hide Next;
    if a == [] {
      assert a + b == b;
    } else {
      assert (a + b)[0] == a[0] && (a + b)[1..] == a[1..] + b;
      RunMore(Next(s, a[0]).value, a[1..], b);
    }
  }

  /** All calls have ended, as the given outcomes say, and the chain behind the last of them is resolved. */
  predicate AllEnded(s: State, throws: seq<bool>) {
    |s| == |throws|
    && forall i :: 0 <= i < |s| ==> s[i] == Call(if throws[i] then Threw else Returned, true, true)
  }

  /** A call made when all others have ended runs, ends as it may, and leaves the chain resolved. */
  lemma OneCall(s: State, throws: seq<bool>, outcome: bool)
    requires AllEnded(s, throws)
    ensures
      var n := |s|;
      var end := Run(s, [Enter, Start(n), Finish(n, outcome), Propagate(n)]);
      end.Some? && AllEnded(end.value, throws + [outcome])
  {
    var n := |s|;
    var a, b, c, d := Enter, Start(n), Finish(n, outcome), Propagate(n);
    var s1 := s + [Call(Waiting, false, false)];
    var s2 := s + [Call(Running, false, false)];
    var s3 := s + [Call(if outcome then Threw else Returned, true, false)];
    var s4 := s + [Call(if outcome then Threw else Returned, true, true)];
    assert Next(s, a) == Some(s1);
    assert s1[n := Call(Running, false, false)] == s2;
    assert Next(s1, b) == Some(s2);
    assert s2[n := Call(if outcome then Threw else Returned, true, false)] == s3;
    assert Next(s2, c) == Some(s3);
    assert s3[n := Call(if outcome then Threw else Returned, true, true)] == s4;
    assert Next(s3, d) == Some(s4);
    FourSteps(s, s1, s2, s3, s4, a, b, c, d);
  }

  lemma FourSteps(s: State, s1: State, s2: State, s3: State, s4: State, a: Step, b: Step, c: Step, d: Step)
    requires Next(s, a) == Some(s1) && Next(s1, b) == Some(s2) && Next(s2, c) == Some(s3) && Next(s3, d) == Some(s4)
    ensures Run(s, [a, b, c, d]) == Some(s4)
  {
    hide Next;
    assert [a, b, c, d][1..] == [b, c, d] && [b, c, d][1..] == [c, d] && [c, d][1..] == [d] && [d][1..] == [];
    assert Run(s3, [d]) == Some(s4);
    assert Run(s2, [c, d]) == Some(s4);
    assert Run(s1, [b, c, d]) == Some(s4);
  }

  /** Any number of calls can be made and ended, whichever of them throw. */
  lemma {:induction false} CallsEnd(throws: seq<bool>) returns (steps: seq<Step>)
    ensures Run([], steps).Some? && AllEnded(Run([], steps).value, throws)
    decreases |throws|
  {
    if throws == [] {
      steps := [];
    } else {
      var n := |throws| - 1;
      var before := CallsEnd(throws[..n]);
      var more := [Enter, Start(n), Finish(n, throws[n]), Propagate(n)];
      steps := before + more;
      OneCall(Run([], before).value, throws[..n], throws[n]);
      assert throws[..n] + [throws[n]] == throws;
      RunMore([], before, more);
    }
  }

  /** No call waits for ever: while some call has not ended, either a query runs or the chain can move. */
  lemma LockProgress(steps: seq<Step>, w: nat)
    requires Run([], steps).Some? && w < |Run([], steps).value| && !Ended(Run([], steps).value[w])
    ensures
      var s := Run([], steps).value;
      || (exists i :: 0 <= i < |s| && s[i].phase == Running)
      || (exists i :: Next(s, Propagate(i)).Some?)
      || (exists i :: Next(s, Start(i)).Some?)
  {
    RunKeeps([], steps);
    FirstOpenMoves(Run([], steps).value, w);
  }

  lemma {:induction false} FirstOpenMoves(s: State, w: nat)
    requires Inv(s) && w < |s| && !Ended(s[w])
    ensures
      || (exists i :: 0 <= i < |s| && s[i].phase == Running)
      || (exists i :: Next(s, Propagate(i)).Some?)
      || (exists i :: Next(s, Start(i)).Some?)
  {
    if s[w].phase != Running {
      if PrevResolved(s, w) {
        assert Next(s, Start(w)).Some?;
      } else if !Ended(s[w - 1]) {
        FirstOpenMoves(s, w - 1);
      } else {
        assert CallOk(s, w - 1);
        assert Next(s, Propagate(w - 1)).Some?;
      }
    }
  }
}
