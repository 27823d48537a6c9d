/** The pipeline's Looper is the trampoline of LooperMachine: its runs are runs of that machine. */
module PipelineTrampoline {
  import opened EndOrErrors
  import opened CheckerSpec
  import opened PipelineMachine
  import opened PipelineInvariants
  import T = LooperMachine

  /** The call stack as the Looper sees it: bodies and drivers. */
  function View<X>(stack: Stack<X>): T.Stack {
    match stack
    case Bottom => T.Bottom
    case Push(Body(first, _), below) => T.Push(if first then T.FirstBody else T.DrivenBody, View(below))
    case Push(Driver, below) => T.Push(T.Driver, View(below))
    case Push(_, below) => View(below)
  }

  /** The step of the trampoline that a step of the pipeline is, if it is one. */
  function ViewAction<X>(s: Machine<X>, action: Action<X>): seq<T.Action> {
    match action
    case Start => [T.Start]
    case Reply(_, _, _) => []
    case Advance =>
      if s.stack.Bottom? then [] else
        match s.stack.top
        case Body(_, true) => [T.Advance]
        case Driver => [T.Advance]
        case Answer(CallingNext) => [T.CallNext]
        case _ => []
  }

  function ViewRun<X>(options: Options, actions: seq<Action<X>>): seq<T.Action>
    requires Allowed(options, actions)
  {
    if actions == [] then []
    else ViewRun(options, Init(actions)) + ViewAction(Exec(options, Init(actions)), Last(actions))
  }

  /** What the two machines agree on; a body that has started but not yet asked makes the difference
      between body starts and requests. Drain never repeats a call of `next`: while an answer is being
      processed there is no other call for it to repeat. */
  ghost predicate Agree<X>(s: Machine<X>, t: T.State) {
    && t.started == s.started
    && t.flags == s.flags
    && t.stack == View(s.stack)
    && T.Starts(t.log) == Requests(s.trace) + One(Issuing(s.stack))
    && (s.flags.nextCalled <==> T.EndsWithCall(t.log))
    && T.RepeatedCalls(t.log) == 0
  }

  /** A step of the pipeline is the step that `ViewAction` names, or one that the Looper cannot see. */
  ghost predicate Simulated<X>(options: Options, s: Machine<X>, action: Action<X>, t: T.State)
    requires Enabled(s, action)
  {
    var acts := ViewAction(s, action);
    && (acts != [] ==> T.Enabled(t, acts[0]))
    && Agree(Move(options, s, action), if acts == [] then t else T.Step(t, acts[0]))
  }

  lemma AgreeNext<X>(options: Options, s: Machine<X>, t: T.State)
    requires StackInv(s) && TokenInv(s) && Agree(s, t)
    requires s.started && s.stack.Push? && s.stack.top == Answer(CallingNext)
    ensures Simulated(options, s, Advance, t)
  {
    T.CountSnoc(t.log, T.NextCalled);
    if s.stack.below.Push? {
      assert WellStacked(s.stack.below) && Fits(s.stack.below.top, s.stack.below.below);
      assert View(s.stack.below) == View(s.stack.below.below);
    }
  }

  lemma AgreeDriver<X>(options: Options, s: Machine<X>, t: T.State)
    requires StackInv(s) && Agree(s, t) && s.stack.Push? && s.stack.top.Driver?
    ensures Simulated(options, s, Advance, t)
  {
    T.CountSnoc(t.log, T.BodyStarted);
  }

  lemma AgreeIssue<X>(options: Options, s: Machine<X>, t: T.State)
    requires Agree(s, t) && Issuing(s.stack)
    ensures Simulated(options, s, Advance, t)
  {
    TraceSnoc(s.trace, Request(False, true));
    assert View(Move(options, s, Advance).stack.below) == View(s.stack);
  }

  lemma AgreeReturn<X>(options: Options, s: Machine<X>, t: T.State)
    requires StackInv(s) && Agree(s, t) && s.stack.Push? && !Issuing(s.stack) && !s.stack.top.Driver?
    requires s.stack.top != Answer(CallingNext)
    ensures Simulated(options, s, Advance, t)
  {
  }

  lemma AgreeStep<X>(options: Options, s: Machine<X>, action: Action<X>, t: T.State)
    requires StackInv(s) && TokenInv(s) && Enabled(s, action) && Agree(s, t)
    ensures Simulated(options, s, action, t)
  {
    match action {
      case Start => T.CountSnoc(t.log, T.BodyStarted);
      case Reply(id, done, value) => TraceSnoc(s.trace, Callback(id, done, value));
      case Advance =>
        match s.stack.top {
          case Answer(CallingNext) => AgreeNext(options, s, t);
          case Driver => AgreeDriver(options, s, t);
          case Body(_, false) => AgreeIssue(options, s, t);
          case _ => AgreeReturn(options, s, t);
        }
    }
  }

  /** Every run of the pipeline is, seen by the Looper, a run of the trampoline. */
  lemma {:induction false} PipelineRefinesTrampoline<X>(options: Options, actions: seq<Action<X>>)
    requires Allowed(options, actions)
    ensures T.Allowed(ViewRun(options, actions))
    ensures Agree(Exec(options, actions), T.Exec(ViewRun(options, actions)))
  {
    if actions == [] {
      return;
    }
    var init, s, action := Init(actions), Exec(options, Init(actions)), Last(actions);
    PipelineRefinesTrampoline(options, init);
    InvExec(options, init);
    AgreeStep(options, s, action, T.Exec(ViewRun(options, init)));
    var acts := ViewAction(s, action);
    if acts == [] {
      assert ViewRun(options, actions) == ViewRun(options, init);
    } else {
      assert acts == [acts[0]];
      T.ExecSnoc(ViewRun(options, init), acts[0]);
    }
  }

  /** So no wake-up of the sink is lost: at rest, the sink has made one request for `Start` and one for
      each call of `next`. */
  lemma RequestsFollowNext<X>(options: Options, actions: seq<Action<X>>)
    requires Allowed(options, actions) && AtRest(Exec(options, actions))
    ensures T.Allowed(ViewRun(options, actions))
    ensures var log := T.Exec(ViewRun(options, actions)).log;
            Requests(Exec(options, actions).trace) == 1 + T.Calls(log)
  {
    PipelineRefinesTrampoline(options, actions);
    T.NoWakeUpLost(ViewRun(options, actions));
  }
}
