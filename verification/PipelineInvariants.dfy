/** What every step of the pipeline keeps. */
module PipelineInvariants {
  import opened EndOrErrors
  import opened CheckerSpec
  import opened PipelineMachine
  import opened Sources
  import CheckerTheorems

  // ----- The call stack -----

  /** Which activation can sit directly on which. */
  ghost predicate Fits<T>(frame: Frame<T>, below: Stack<T>) {
    match frame
    case Body(first, _) => if first then below.Bottom? else below.Push? && below.top.Driver?
    case Driver => below.Push? && below.top == Answer(Leaving)
    case Asked(_) => below.Push? && below.top.Body? && below.top.issued
    case Answer(_) => below.Bottom? || below.top.Asked?
  }

  ghost predicate WellStacked<T>(stack: Stack<T>) {
    stack.Push? ==> Fits(stack.top, stack.below) && WellStacked(stack.below)
  }

  ghost predicate StackInv<T>(s: Machine<T>) {
    && WellStacked(s.stack)
    && Drivers(s.stack) == One(!s.flags.returned)
    && (s.flags.nextCalled ==> !s.flags.returned)
    && (!s.started ==> s == Fresh())
  }

  lemma StackInvStep<T>(options: Options, s: Machine<T>, action: Action<T>)
    requires StackInv(s) && Enabled(s, action)
    ensures StackInv(Move(options, s, action))
  {
  }

  function Rank<T>(stack: Stack<T>): nat {
    match stack
    case Bottom => 0
    case Push(Body(_, _), _) => 1
    case Push(Asked(_), _) => 2
    case Push(Answer(_), _) => 3
    case Push(Driver, _) => 0
  }

  lemma {:induction false} DepthBounded<T>(stack: Stack<T>)
    requires WellStacked(stack)
    ensures Depth(stack) <= 4 * Drivers(stack) + Rank(stack)
  {
    if stack.Push? {
      DepthBounded(stack.below);
    }
  }

  // ----- The token -----

  ghost predicate TokenInv<T>(s: Machine<T>) {
    Tokens(s) == 1 && forall id :: id in s.outstanding ==> id < s.checker.i
  }

  lemma TokenIssue<T>(options: Options, s: Machine<T>)
    requires TokenInv(s) && s.stack.Push? && s.stack.top.Body? && !s.stack.top.issued
    ensures TokenInv(Move(options, s, Advance))
  {
    var t := Move(options, s, Advance);
    assert s.checker.i !in s.outstanding;
    assert |t.outstanding| == |s.outstanding| + 1;
  }

  lemma TokenReply<T>(options: Options, s: Machine<T>, action: Action<T>)
    requires TokenInv(s) && action.Reply? && Enabled(s, action)
    ensures TokenInv(Move(options, s, action))
  {
    var t := Move(options, s, action);
    assert |t.outstanding| == |s.outstanding| - 1;
    assert t.sinkCalls == s.sinkCalls && t.flags == s.flags && t.started == s.started;
  }

  lemma TokenQuiet<T>(options: Options, s: Machine<T>, action: Action<T>)
    requires StackInv(s) && TokenInv(s) && Enabled(s, action)
    requires action.Start? || (action.Advance? && !Issuing(s.stack))
    ensures TokenInv(Move(options, s, action))
  {
    assert Move(options, s, action).outstanding == s.outstanding;
  }

  lemma TokenInvStep<T>(options: Options, s: Machine<T>, action: Action<T>)
    requires StackInv(s) && TokenInv(s) && Enabled(s, action)
    ensures TokenInv(Move(options, s, action))
  {
    if action.Reply? {
      TokenReply(options, s, action);
    } else if action.Advance? && Issuing(s.stack) {
      TokenIssue(options, s);
    } else {
      TokenQuiet(options, s, action);
    }
  }

  // ----- The monitor and the sink -----

  ghost predicate Announced<T>(stack: Stack<T>) {
    stack.Push? && stack.top.Answer? && stack.top.phase.Delivering?
  }

  ghost predicate CheckerInv<T>(s: Machine<T>) {
    var c := s.checker;
    && c.errors == []
    && c.aborted == False
    && c.i >= 1
    && (if s.outstanding == {} then c.latest + 1 == c.i
        else c.latest + 2 == c.i && s.outstanding == {c.latest + 1}
             && c.latest + 1 in c.counters && c.counters[c.latest + 1] == 0)
    && (Announced(s.stack) ==> c.done == s.stack.top.phase.done)
    && (Finished(s) ==> Last(s.sinkCalls) == OnDone(c.done))
    && (c.done.Truthy() ==> Announced(s.stack) || Finished(s))
  }

  lemma CheckerReply<T>(options: Options, s: Machine<T>, action: Action<T>)
    requires TokenInv(s) && CheckerInv(s) && action.Reply? && Enabled(s, action)
    ensures CheckerInv(Move(options, s, action))
  {
    assert |s.outstanding| > 0;
    assert !Finished(s) && !s.checker.Terminated();
  }

  lemma CheckerIssue<T>(options: Options, s: Machine<T>)
    requires TokenInv(s) && CheckerInv(s) && Issuing(s.stack)
    ensures CheckerInv(Move(options, s, Advance))
  {
    assert s.outstanding == {} && !Finished(s) && !s.checker.Terminated();
  }

  lemma CheckerInvStep<T>(options: Options, s: Machine<T>, action: Action<T>)
    requires StackInv(s) && TokenInv(s) && CheckerInv(s) && Enabled(s, action)
    ensures CheckerInv(Move(options, s, action))
  {
    if action.Reply? {
      CheckerReply(options, s, action);
    } else if action.Advance? && Issuing(s.stack) {
      CheckerIssue(options, s);
    } else {
      assert Move(options, s, action).checker == s.checker;
    }
  }

  // ----- What flows through -----

  function Pending<T>(stack: Stack<T>): seq<SinkCall<T>> {
    match stack
    case Push(Answer(Delivering(done, value)), _) => [SinkCallOf(done, value)]
    case _ => []
  }

  ghost predicate FlowInv<T>(s: Machine<T>) {
    && s.sinkCalls + Pending(s.stack) == CallsOf(Replies(s.trace))
    && (forall k :: 0 <= k < |s.sinkCalls| - 1 ==> s.sinkCalls[k].OnValue?)
  }

  lemma TraceSnoc<T>(trace: seq<Event<T>>, event: Event<T>)
    ensures Init(trace + [event]) == trace && Last(trace + [event]) == event
    ensures Requests(trace + [event]) == Requests(trace) + if event.Request? then 1 else 0
    ensures Replies(trace + [event]) ==
            Replies(trace) + if event.Callback? then [Response(event.done, event.value)] else []
  {
    assert Init(trace + [event]) == trace;
  }

  lemma CallsSnoc<T>(replies: seq<Response<T>>, reply: Response<T>)
    ensures CallsOf(replies + [reply]) == CallsOf(replies) + [SinkCallOf(reply.done, reply.value)]
  {
    assert Init(replies + [reply]) == replies;
  }

  lemma FlowReply<T>(options: Options, s: Machine<T>, action: Action<T>)
    requires TokenInv(s) && CheckerInv(s) && FlowInv(s) && action.Reply? && Enabled(s, action)
    ensures FlowInv(Move(options, s, action))
  {
    TraceSnoc(s.trace, Callback(action.id, action.done, action.value));
    CallsSnoc(Replies(s.trace), Response(action.done, action.value));
    assert Pending(s.stack) == [];
    assert |s.outstanding| > 0;
    assert !s.checker.done.Truthy();
  }

  lemma FlowDelivery<T>(options: Options, s: Machine<T>)
    requires TokenInv(s) && FlowInv(s) && Announced(s.stack)
    ensures FlowInv(Move(options, s, Advance))
  {
    var t := Move(options, s, Advance);
    assert !Finished(s);
    assert t.sinkCalls == s.sinkCalls + Pending(s.stack) && Pending(t.stack) == [];
  }

  lemma FlowIssue<T>(options: Options, s: Machine<T>)
    requires FlowInv(s) && Issuing(s.stack)
    ensures FlowInv(Move(options, s, Advance))
  {
    var t := Move(options, s, Advance);
    TraceSnoc(s.trace, Request(False, true));
    assert Replies(t.trace) == Replies(s.trace) && t.sinkCalls == s.sinkCalls;
    assert Pending(s.stack) == [] && Pending(t.stack) == [];
  }

  lemma FlowQuiet<T>(options: Options, s: Machine<T>, action: Action<T>)
    requires StackInv(s) && FlowInv(s) && Enabled(s, action)
    requires action.Start? || (action.Advance? && !Issuing(s.stack) && !Announced(s.stack))
    ensures FlowInv(Move(options, s, action))
  {
    var t := Move(options, s, action);
    assert t.trace == s.trace && t.sinkCalls == s.sinkCalls;
    assert Pending(s.stack) == [] && Pending(t.stack) == [];
  }

  lemma FlowInvStep<T>(options: Options, s: Machine<T>, action: Action<T>)
    requires StackInv(s) && TokenInv(s) && CheckerInv(s) && FlowInv(s) && Enabled(s, action)
    ensures FlowInv(Move(options, s, action))
  {
    if action.Reply? {
      FlowReply(options, s, action);
    } else if action.Advance? && Announced(s.stack) {
      FlowDelivery(options, s);
    } else if action.Advance? && Issuing(s.stack) {
      FlowIssue(options, s);
    } else {
      FlowQuiet(options, s, action);
    }
  }

  ghost predicate TraceInv<T>(options: Options, s: Machine<T>) {
    && s.checker == Run(options, s.trace)
    && Causal(s.trace)
    && (forall k :: 0 <= k < |s.trace| && s.trace[k].Request? ==> s.trace[k] == Request(False, true))
  }

  lemma CausalSnoc<T>(trace: seq<Event<T>>, event: Event<T>)
    requires Causal(trace) && (event.Callback? ==> 1 <= event.id <= Requests(trace))
    ensures Causal(trace + [event])
  {
    var all := trace + [event];
    forall k | 0 <= k < |all| && all[k].Callback? ensures 1 <= all[k].id <= Requests(all[..k]) {
      assert all[..k] == trace[..k];
      if k == |trace| {
        assert trace[..k] == trace;
      } else {
        assert all[k] == trace[k];
      }
    }
  }

  lemma TraceGrows<T>(options: Options, s: Machine<T>, event: Event<T>)
    requires TraceInv(options, s)
    requires event == Request(False, true) || (event.Callback? && 1 <= event.id < s.checker.i)
    ensures TraceInv(options, s.(checker := CheckerSpec.Step(options, s.checker, event), trace := s.trace + [event]))
  {
    CheckerTheorems.FieldsMean(options, s.trace);
    TraceSnoc(s.trace, event);
    CausalSnoc(s.trace, event);
  }

  lemma TraceQuiet<T>(options: Options, s: Machine<T>, action: Action<T>)
    requires TraceInv(options, s) && Enabled(s, action)
    requires action.Start? || (action.Advance? && !Issuing(s.stack))
    ensures TraceInv(options, Move(options, s, action))
  {
    var t := Move(options, s, action);
    assert t.checker == s.checker && t.trace == s.trace;
  }

  lemma TraceInvStep<T>(options: Options, s: Machine<T>, action: Action<T>)
    requires CheckerInv(s) && TraceInv(options, s) && Enabled(s, action)
    ensures TraceInv(options, Move(options, s, action))
  {
    if action.Reply? {
      TraceGrows(options, s, Callback(action.id, action.done, action.value));
    } else if action.Advance? && Issuing(s.stack) {
      TraceGrows(options, s, Request(False, true));
    } else {
      TraceQuiet(options, s, action);
    }
  }

  // ----- All of it, over every run -----

  ghost predicate Inv<T>(options: Options, s: Machine<T>) {
    StackInv(s) && TokenInv(s) && CheckerInv(s) && FlowInv(s) && TraceInv(options, s)
  }

  lemma {:induction false} InvExec<T>(options: Options, actions: seq<Action<T>>)
    requires Allowed(options, actions)
    ensures Inv(options, Exec(options, actions))
  {
    if actions != [] {
      var s, action := Exec(options, Init(actions)), Last(actions);
      InvExec(options, Init(actions));
      StackInvStep(options, s, action);
      TokenInvStep(options, s, action);
      CheckerInvStep(options, s, action);
      FlowInvStep(options, s, action);
      TraceInvStep(options, s, action);
    }
  }

  lemma {:induction false} FirstStepStarts<T>(options: Options, actions: seq<Action<T>>)
    requires Allowed(options, actions) && actions != []
    ensures Exec(options, actions).started
  {
    if Init(actions) != [] {
      FirstStepStarts(options, Init(actions));
    }
  }

  /** The monitor has nothing against a request that Drain makes. */
  lemma IssueIsClean<T>(options: Options, s: Machine<T>)
    requires TokenInv(s) && CheckerInv(s) && Issuing(s.stack)
    ensures s.outstanding == {} && RequestViolations(options, s.checker, False) == []
  {
  }

  /** The monitor has nothing against an answer, and it is the first of its callback. */
  lemma ReplyIsClean<T>(options: Options, s: Machine<T>, id: nat, done: Done)
    requires TokenInv(s) && CheckerInv(s) && id in s.outstanding && (s.stack.Bottom? || s.stack.top.Asked?)
    ensures id in s.checker.counters && CallbackViolations(s.checker, id, done) == []
    ensures s.outstanding - {id} == {}
  {
    assert |s.outstanding| > 0;
  }
}
