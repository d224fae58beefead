/** The engine and its remote copy. */
module EngineSync {
  import opened ViewModelPatch
  import opened ViewModelDiff

  // The explorer engine, the worker pipeline that feeds it, and the main-thread copy of its view model,
  // which is kept up to date with patches only.

  /**
   The application behind the engine: how an event changes the state and which effects it asks for
   (undo and redo included), what the state shows, and how a view model serialises.
   */
  datatype App<!S, !E, !F, !V> = App(
    reduce: (S, E) -> (S, seq<F>),
    initial: S,
    select: S -> V,
    normalize: V -> Value)

  class Engine<S, E, F, V> {
    const app: App<S, E, F, V>
    var state: S
    var viewModel: V

    constructor (app: App<S, E, F, V>)
      ensures this.app == app && state == app.initial && viewModel == app.select(app.initial)
    {
      this.app := app;
      state := app.initial;
      viewModel := app.select(app.initial);
    }

    method Init() returns (vm: V)
      modifies this
      ensures state == app.initial && viewModel == app.select(state) && vm == viewModel
    {
      state := app.initial;
      viewModel := app.select(state);
      vm := viewModel;
    }

    /** Applies an event and answers with the patches from the old view model to the new one. */
    method HandleEvent(event: E) returns (patches: seq<Patch>, effects: seq<F>)
      modifies this
      ensures (state, effects) == app.reduce(old(state), event)
      ensures viewModel == app.select(state)
      ensures patches == DiffValue(app.normalize(old(viewModel)), app.normalize(viewModel))
    {
      var prev := app.normalize(viewModel);
      var transition := app.reduce(state, event);
      state := transition.0;
      viewModel := app.select(state);
      var next := app.normalize(viewModel);
      patches := DiffAtLoop(prev, next, []);
      effects := transition.1;
    }
  }

  // ---------- the pipeline: one worker request ----------

  /** How running one effect ended: with follow-up events, or with an exception. */
  datatype Outcome<E> = Events(events: seq<E>) | Thrown

  /**
   How a request ended: answered with all patches, failed by an exception, still waiting for an
   effect that has not ended, or refused because no event was given.
   */
  datatype Reply = Answered(patches: seq<Patch>) | Failed | Waiting | NoViewModel

  datatype PipelineEnd<S> = PipelineEnd(state: S, reply: Reply)

  /** The effects of one event: the grown queue, an exception, or an effect that has not ended. */
  datatype EffectRun<E> = Collected(queue: seq<E>) | Threw | Stalled

  /** Runs effects in order; the events of each join the end of the queue. */
  function RunEffects<E>(queue: seq<E>, effects: nat, outcomes: seq<Outcome<E>>): (r: EffectRun<E>)
    ensures r.Collected? ==> effects <= |outcomes| && (effects == 0 ==> r.queue == queue)
    decreases effects
  {
    if effects == 0 then Collected(queue)
    else if outcomes == [] then Stalled
    else
      match outcomes[0]
      case Thrown => Threw
      case Events(events) => RunEffects(queue + events, effects - 1, outcomes[1..])
  }

  /** The view model a state shows, as JSON. */
  function Shown<S, E, F, V>(app: App<S, E, F, V>, state: S): Value {
    app.normalize(app.select(state))
  }

  /** One request, from a given state: events are handled first in, first out. */
  ghost function Pipeline<S, E, F, V>(app: App<S, E, F, V>, state: S, queue: seq<E>,
                                      outcomes: seq<Outcome<E>>, sent: seq<Patch>, handled: bool)
    : PipelineEnd<S>
    decreases |outcomes|, |queue|
  {
    if queue == [] then PipelineEnd(state, if handled then Answered(sent) else NoViewModel)
    else
      var (state', effects) := app.reduce(state, queue[0]);
      match RunEffects(queue[1..], |effects|, outcomes)
      case Stalled => PipelineEnd(state', Waiting)
      case Threw => PipelineEnd(state', Failed)
      case Collected(queue') =>
        Pipeline(app, state', queue', outcomes[|effects|..], sent + DiffValue(Shown(app, state), Shown(app, state')),
          true)
  }

  /** The event loop of the worker, on the engine object. */
  method RunPipeline<S, E, F, V>(engine: Engine<S, E, F, V>, seed: seq<E>, outcomes: seq<Outcome<E>>)
    returns (reply: Reply)
    requires engine.viewModel == engine.app.select(engine.state)
    modifies engine
    ensures engine.viewModel == engine.app.select(engine.state)
    ensures PipelineEnd(engine.state, reply) == Serve(engine.app, old(engine.state), Request(seed, outcomes))
  {
    var app := engine.app;
    var queue, left := seed, outcomes;
    var patches: seq<Patch> := [];
    var handled := false;
    while queue != []
      invariant engine.viewModel == app.select(engine.state)
      invariant Pipeline(app, engine.state, queue, left, patches, handled)
             == Pipeline(app, old(engine.state), seed, outcomes, [], false)
      decreases |left|, |queue|
    {
      ghost var pending := queue[1..];
      var event := queue[0];
      queue := queue[1..];
      var more, effects := engine.HandleEvent(event);
      patches := patches + more;
      handled := true;
      ghost var outcomesBefore := left;
      for k := 0 to |effects|
        invariant RunEffects(pending, |effects|, outcomesBefore) == RunEffects(queue, |effects| - k, left)
        invariant k <= |outcomesBefore| && left == outcomesBefore[k..]
        invariant k == 0 ==> queue == pending
      {
        if left == [] { return Waiting; }
        if left[0].Thrown? { return Failed; }
        queue := queue + left[0].events;
        left := left[1..];
      }
    }
    return if handled then Answered(patches) else NoViewModel;
  }

  // ---------- events in order ----------

  /** The events of effects that ended, in the order in which they did. */
  function Produced<E>(outcomes: seq<Outcome<E>>): seq<E> {
    if outcomes == [] then []
    else (if outcomes[0].Events? then outcomes[0].events else []) + Produced(outcomes[1..])
  }

  /** The state after some events. */
  function After<S, E, F, V>(app: App<S, E, F, V>, state: S, events: seq<E>): S
    decreases |events|
  {
    if events == [] then state else After(app, app.reduce(state, events[0]).0, events[1..])
  }

  /** The patches of some events, one diff after the other. */
  ghost function Diffs<S, E, F, V>(app: App<S, E, F, V>, state: S, events: seq<E>): seq<Patch>
    decreases |events|
  {
    if events == [] then []
    else
      var state' := app.reduce(state, events[0]).0;
      DiffValue(Shown(app, state), Shown(app, state')) + Diffs(app, state', events[1..])
  }

  lemma {:induction false} ProducedConcat<E>(a: seq<Outcome<E>>, b: seq<Outcome<E>>)
    ensures Produced(a + b) == Produced(a) + Produced(b)
    decreases |a|
  {
    if a == [] {
      assert a + b == b;
    } else {
      ProducedConcat(a[1..], b);
      assert (a + b)[0] == a[0] && (a + b)[1..] == a[1..] + b;
    }
  }

  lemma ProducedSplit<E>(outcomes: seq<Outcome<E>>, k: nat, m: nat)
    requires k + m <= |outcomes|
    ensures Produced(outcomes[..k + m]) == Produced(outcomes[..k]) + Produced(outcomes[k..][..m])
  {
    hide Produced;
    assert outcomes[..k + m] == outcomes[..k] + outcomes[k..][..m];
    ProducedConcat(outcomes[..k], outcomes[k..][..m]);
  }

  lemma {:induction false} EffectsQueue<E>(queue: seq<E>, effects: nat, outcomes: seq<Outcome<E>>)
    requires RunEffects(queue, effects, outcomes).Collected?
    ensures RunEffects(queue, effects, outcomes).queue == queue + Produced(outcomes[..effects])
    decreases effects
  {
    if effects == 0 {
      assert outcomes[..0] == [];
    } else {
      EffectsQueue(queue + outcomes[0].events, effects - 1, outcomes[1..]);
      assert outcomes[..effects][1..] == outcomes[1..][..effects - 1];
      assert outcomes[..effects][0] == outcomes[0];
    }
  }

  /** The first of some events, and then the others. */
  lemma FirstEvent<S, E, F, V>(app: App<S, E, F, V>, state: S, first: E, later: seq<E>, n: nat)
    requires n <= |later|
    ensures
      var events, state' := [first] + later, app.reduce(state, first).0;
      && After(app, state, events[..n + 1]) == After(app, state', later[..n])
      && Diffs(app, state, events) == DiffValue(Shown(app, state), Shown(app, state')) + Diffs(app, state', later)
  {
    hide DiffValue, Shown;
    var events := [first] + later;
    assert events[1..] == later && events[..n + 1][1..] == later[..n] && events[..n + 1][0] == first;
  }

  lemma Regroup<T>(first: T, a: seq<T>, b: seq<T>, c: seq<T>)
    ensures [first] + (a + b + c) == [first] + a + (b + c)
  {
  }

  lemma OneByOne<T>(a: seq<T>, b: seq<T>, c: seq<T>)
    ensures a + b + c == a + (b + c)
  {
  }

  /**
   A request handles events first in, first out: those it was given, and then those that effects produced, in the order
   of the effects. An answer comes when none is left, and has the diffs of them all.
   */
  lemma {:induction false} HandledInOrder<S, E, F, V>(app: App<S, E, F, V>, state: S, queue: seq<E>,
                                                      outcomes: seq<Outcome<E>>, sent: seq<Patch>, handled: bool)
    returns (n: nat, m: nat)
    ensures m <= |outcomes| && n <= |queue + Produced(outcomes[..m])|
    ensures
      var end, events := Pipeline(app, state, queue, outcomes, sent, handled), queue + Produced(outcomes[..m]);
      && end.state == After(app, state, events[..n])
      && (end.reply == NoViewModel <==> queue == [] && !handled)
      && (end.reply.Answered? ==> n == |events| && end.reply.patches == sent + Diffs(app, state, events))
    decreases |outcomes|, |queue|
  {
    hide DiffValue, Shown, RunEffects, Produced, After, Diffs;
    if queue == [] {
      n, m := 0, 0;
      NoEvents(app, state, outcomes);
    } else {
      var (state', effects) := app.reduce(state, queue[0]);
      var run, diff := RunEffects(queue[1..], |effects|, outcomes), DiffValue(Shown(app, state), Shown(app, state'));
      assert queue == [queue[0]] + queue[1..];
      if run.Collected? {
        var k := |effects|;
        EffectsQueue(queue[1..], k, outcomes);
        var n', m' := HandledInOrder(app, state', run.queue, outcomes[k..], sent + diff, true);
        n, m := n' + 1, k + m';
        ProducedSplit(outcomes, k, m');
        var later := run.queue + Produced(outcomes[k..][..m']);
        Regroup(queue[0], queue[1..], Produced(outcomes[..k]), Produced(outcomes[k..][..m']));
        FirstEvent(app, state, queue[0], later, n');
        OneByOne(sent, diff, Diffs(app, state', later));
      } else {
        n, m := 1, 0;
        FirstEvent(app, state, queue[0], queue[1..], 0);
        NoEvents(app, state', outcomes);
        assert queue + [] == queue;
      }
    }
  }

  lemma NoEvents<S, E, F, V>(app: App<S, E, F, V>, state: S, outcomes: seq<Outcome<E>>)
    ensures Produced(outcomes[..0]) == [] && After(app, state, []) == state && Diffs(app, state, []) == []
  {
  }

  // ---------- the copy follows the engine ----------

  /** The patches take the copy to something equal to `target`. */
  ghost predicate Tracks(copy: Value, patches: seq<Patch>, target: Value) {
    TsApplyPatches(copy, patches).Done? && Normal(TsApplyPatches(copy, patches).value) == Normal(target)
  }

  lemma TracksStep(copy: Value, patches: seq<Patch>, prev: Value, next: Value)
    requires Tracks(copy, patches, prev)
    ensures Tracks(copy, patches + DiffValue(prev, next), next)
  {
    var c := TsApplyPatches(copy, patches).value;
    var diff := DiffValue(prev, next);
    TsApplyConcat(copy, patches, diff);
    DiffThenApply(prev, next);
    TsApplyCongruent(c, prev, diff);
  }

  lemma {:induction false} PipelineTracks<S, E, F, V>(app: App<S, E, F, V>, copy: Value, state: S, queue: seq<E>,
                                                      outcomes: seq<Outcome<E>>, sent: seq<Patch>, handled: bool)
    requires Tracks(copy, sent, Shown(app, state))
    ensures
      var end := Pipeline(app, state, queue, outcomes, sent, handled);
      end.reply.Answered? ==> Tracks(copy, end.reply.patches, Shown(app, end.state))
    decreases |outcomes|, |queue|
  {
    if queue == [] {
    } else {
      var (state', effects) := app.reduce(state, queue[0]);
      TracksStep(copy, sent, Shown(app, state), Shown(app, state'));
      var run := RunEffects(queue[1..], |effects|, outcomes);
      if run.Collected? {
        PipelineTracks(app, copy, state', run.queue, outcomes[|effects|..],
          sent + DiffValue(Shown(app, state), Shown(app, state')), true);
      }
    }
  }

  // ---------- whole sessions ----------

  /** One request of a session: its events and how the effects it ran ended. */
  datatype Request<E> = Request(seed: seq<E>, outcomes: seq<Outcome<E>>)

  ghost function Serve<S, E, F, V>(app: App<S, E, F, V>, state: S, r: Request<E>): PipelineEnd<S> {
    Pipeline(app, state, r.seed, r.outcomes, [], false)
  }

  /** The copy after a reply: patched when there is an answer, unchanged otherwise. */
  ghost function Receive(copy: Value, reply: Reply): TsResult {
    if reply.Answered? then TsApplyPatches(copy, reply.patches) else Done(copy)
  }

  /**
   One request. From an equal copy, the copy equals the engine afterwards exactly when the request
   was answered or the events it handled left the shown view model equal: the patches of a request
   that fails half way are lost.
   */
  lemma CopyAfterRequest<S, E, F, V>(app: App<S, E, F, V>, state: S, copy: Value, r: Request<E>)
    requires Normal(copy) == Normal(Shown(app, state))
    ensures
      var end := Serve(app, state, r);
      && Receive(copy, end.reply).Done?
      && (Normal(Receive(copy, end.reply).value) == Normal(Shown(app, end.state))
          <==> end.reply.Answered? || Normal(Shown(app, state)) == Normal(Shown(app, end.state)))
  {
    var end := Serve(app, state, r);
    PipelineTracks(app, copy, state, r.seed, r.outcomes, [], false);
  }

  /** The copy equals the engine's view model after every request of the session. */
  ghost predicate InSync<S, E, F, V>(app: App<S, E, F, V>, state: S, copy: Value, session: seq<Request<E>>)
    decreases |session|
  {
    session == [] ||
    var end := Serve(app, state, session[0]);
    && Receive(copy, end.reply).Done?
    && Normal(Receive(copy, end.reply).value) == Normal(Shown(app, end.state))
    && InSync(app, end.state, Receive(copy, end.reply).value, session[1..])
  }

  /** Every request without an answer left the shown view model equal. */
  ghost predicate NothingLost<S, E, F, V>(app: App<S, E, F, V>, state: S, session: seq<Request<E>>)
    decreases |session|
  {
    session == [] ||
    var end := Serve(app, state, session[0]);
    && (end.reply.Answered? || Normal(Shown(app, state)) == Normal(Shown(app, end.state)))
    && NothingLost(app, end.state, session[1..])
  }

  /** Over any session, the copy follows the engine exactly when nothing is lost to a failure. */
  lemma {:induction false} CopyFollowsEngine<S, E, F, V>(app: App<S, E, F, V>, state: S, copy: Value,
                                                         session: seq<Request<E>>)
    requires Normal(copy) == Normal(Shown(app, state))
    ensures InSync(app, state, copy, session) <==> NothingLost(app, state, session)
    decreases |session|
  {
    if session == [] {
    } else {
      CopyAfterRequest(app, state, copy, session[0]);
      var end := Serve(app, state, session[0]);
      var copy' := Receive(copy, end.reply).value;
      if Normal(copy') == Normal(Shown(app, end.state)) { CopyFollowsEngine(app, end.state, copy', session[1..]); }
    }
  }

  /** An application that shows the last event it was given, and asks for one effect each time. */
  function Echo(): App<Value, Value, bool, Value> {
    App((state, event) => (event, [true]), Null, state => state, vm => vm)
  }

  /** A concrete loss: the event is handled, its effect throws, and the copy stays behind. */
  lemma FailedEffectLosesPatches()
    ensures !InSync(Echo(), Null, Null, [Request([Bool(true)], [Thrown])])
  {
    var queue: seq<Value> := [Bool(true)];
    assert queue[1..] == [];
    assert Serve(Echo(), Null, Request(queue, [Thrown])) == PipelineEnd(Bool(true), Failed);
  }
}
