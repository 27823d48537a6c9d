/** What the composition of source, monitor, Drain and Looper guarantees, under every schedule. */
module PipelineTheorems {
  import opened EndOrErrors
  import opened CheckerSpec
  import opened Sources
  import opened PipelineMachine
  import opened PipelineInvariants
  import opened CheckerTheorems
  import CheckerAccounting
  import ProtocolCheckers

  // ----- Safety, for an arbitrary source -----

  /** The monitor never has anything to report, with any options. */
  lemma PipelineIsSilent<T>(options: Options, actions: seq<Action<T>>)
    requires Allowed(options, actions)
    ensures Exec(options, actions).checker.errors == []
  {
    InvExec(options, actions);
  }

  /** So it never throws in eager mode either. */
  lemma PipelineNeverThrows<T>(options: Options, actions: seq<Action<T>>)
    requires Allowed(options, actions)
    ensures ProtocolCheckers.FirstReport(options, INITIAL, Exec(options, actions).trace) == None
  {
    InvExec(options, actions);
    CheckerAccounting.FirstReportIsFirstError(options, Exec(options, actions).trace);
  }

  /** Once `onDone` has been called, `Terminate` returns the empty list, and what the monitor has seen
      obeys the protocol. */
  lemma PipelineObeys<T>(options: Options, actions: seq<Action<T>>)
    requires Allowed(options, actions) && Finished(Exec(options, actions))
    ensures Report(options, Exec(options, actions).trace) == []
    ensures Obeys(options, Exec(options, actions).trace)
  {
    InvExec(options, actions);
    FinishedIsClean(options, Exec(options, actions));
    MonitorExact(options, Exec(options, actions).trace);
  }

  lemma FinishedIsClean<T>(options: Options, s: Machine<T>)
    requires Inv(options, s) && Finished(s)
    ensures Report(options, s.trace) == []
  {
    DoneIsKnown(s);
    assert s.outstanding == {};
    assert TerminateViolations(options, s.checker) == [];
  }

  /** A finished stream has a truthy done, and the monitor has it too. */
  lemma DoneIsKnown<T>(s: Machine<T>)
    requires TokenInv(s) && CheckerInv(s) && FlowInv(s) && Finished(s)
    ensures s.checker.done.Truthy()
  {
    assert Pending(s.stack) == [];
    CallsAt(Replies(s.trace));
  }

  /** The right to make the next move is in exactly one place: the sink has not started, it is issuing
      a request, the source owes an answer, an answer is being processed, the driver has a `next` to
      consume, or the stream is finished. So there are never two outstanding requests, and none is
      issued or outstanding once the stream is finished. */
  lemma TokenConserved<T>(options: Options, actions: seq<Action<T>>)
    requires Allowed(options, actions)
    ensures var s := Exec(options, actions);
            && Tokens(s) == 1
            && |s.outstanding| <= 1
            && (Finished(s) ==> s.outstanding == {} && !Issuing(s.stack))
  {
    InvExec(options, actions);
  }

  /** The call stack stays flat: seven activations at most, however long the stream is and however its
      answers are mixed. */
  lemma StackBounded<T>(options: Options, actions: seq<Action<T>>)
    requires Allowed(options, actions)
    ensures Depth(Exec(options, actions).stack) <= 7
  {
    InvExec(options, actions);
    DepthBounded(Exec(options, actions).stack);
  }

  /** The sink is told what the source answered, in order and nothing else; `onDone` comes last. */
  lemma SinkHearsSource<T>(options: Options, actions: seq<Action<T>>)
    requires Allowed(options, actions)
    ensures var s := Exec(options, actions);
            && s.sinkCalls + Pending(s.stack) == CallsOf(Replies(s.trace))
            && (forall k :: 0 <= k < |s.sinkCalls| && s.sinkCalls[k].OnDone? ==> k == |s.sinkCalls| - 1)
  {
    InvExec(options, actions);
  }

  // ----- Total correctness, for a source with a finite stream -----

  /** The answers are those of a source that delivers `values` and then ends with `end`. */
  ghost predicate Serves<T>(values: seq<T>, end: Done, replies: seq<Response<T>>) {
    forall k :: 0 <= k < |replies| ==>
      if k < |values| then replies[k] == Response(False, values[k]) else replies[k].done == end
  }

  lemma ServesSnoc<T>(values: seq<T>, end: Done, replies: seq<Response<T>>, response: Response<T>)
    requires Serves(values, end, replies)
    requires if |replies| < |values| then response == Response(False, values[|replies|]) else response.done == end
    ensures Serves(values, end, replies + [response])
  {
  }

  /** The sink calls that a whole stream amounts to. */
  function StreamCalls<T>(values: seq<T>, end: Done): seq<SinkCall<T>> {
    seq(|values|, k requires 0 <= k < |values| => OnValue(values[k])) + [OnDone(end)]
  }

  lemma {:induction false} CallsAt<T>(replies: seq<Response<T>>)
    ensures |CallsOf(replies)| == |replies|
    ensures forall k :: 0 <= k < |replies| ==>
              CallsOf(replies)[k] == SinkCallOf(replies[k].done, replies[k].value)
  {
    if replies != [] {
      CallsAt(Init(replies));
      forall k | 0 <= k < |replies| - 1 ensures Init(replies)[k] == replies[k] {
      }
    }
  }

  /** What an activation can still cost in steps. */
  function FrameWeight<T>(frame: Frame<T>): nat {
    match frame
    case Body(_, false) => 3
    case Answer(Delivering(_, _)) => 8
    case Answer(CallingNext) => 7
    case _ => 1
  }

  function StackWeight<T>(stack: Stack<T>): nat {
    if stack.Bottom? then 0 else StackWeight(stack.below) + FrameWeight(stack.top)
  }

  function Measure<T>(length: nat, s: Machine<T>): int {
    9 * (length + 1 - |Replies(s.trace)|) + Load(s) + 4 * One(!s.started)
  }

  lemma RepliesMove<T>(options: Options, s: Machine<T>, action: Action<T>)
    requires Enabled(s, action)
    ensures Replies(Move(options, s, action).trace) ==
            Replies(s.trace) + if action.Reply? then [Response(action.done, action.value)] else []
  {
    if action.Reply? {
      TraceSnoc(s.trace, Callback(action.id, action.done, action.value));
    } else {
      TraceSnoc(s.trace, Request(False, true));
    }
  }

  /** The part of the measure that an `Advance` brings down. */
  function Load<T>(s: Machine<T>): nat {
    StackWeight(s.stack) + 4 * One(s.flags.nextCalled)
  }

  lemma LoadDecreases<T>(options: Options, s: Machine<T>)
    requires s.stack.Push?
    ensures Load(Move(options, s, Advance)) < Load(s)
  {
    var t, below := Move(options, s, Advance), s.stack.below;
    match s.stack.top {
      case Body(_, false) => assert StackWeight(t.stack.below) == StackWeight(below) + 1;
      case Answer(CallingNext) => assert StackWeight(Push(Answer(Leaving), below)) == StackWeight(below) + 1;
      case _ =>
    }
  }

  lemma MeasureDecreases<T>(options: Options, length: nat, s: Machine<T>, action: Action<T>)
    requires Enabled(s, action)
    ensures Measure(length, Move(options, s, action)) < Measure(length, s)
  {
    RepliesMove(options, s, action);
    if action.Advance? {
      LoadDecreases(options, s);
    }
  }

  /** While the source still owes an answer, it has answered with values only. */
  lemma OwingMeansValues<T>(options: Options, s: Machine<T>)
    requires Inv(options, s) && (s.outstanding != {} || !Finished(s))
    requires !Announced(s.stack)
    ensures forall k :: 0 <= k < |Replies(s.trace)| ==> !Replies(s.trace)[k].done.Truthy()
  {
    var replies := Replies(s.trace);
    CallsAt(replies);
    assert s.outstanding != {} ==> |s.outstanding| > 0;
    forall k | 0 <= k < |replies| ensures !replies[k].done.Truthy() {
      assert s.sinkCalls[k] == SinkCallOf(replies[k].done, replies[k].value);
      assert s.sinkCalls[k].OnValue?;
    }
  }

  lemma {:induction false} RunsAreShort<T>(options: Options, values: seq<T>, end: Done, actions: seq<Action<T>>)
    requires Allowed(options, actions) && end.Truthy()
    requires Serves(values, end, Replies(Exec(options, actions).trace))
    ensures |Replies(Exec(options, actions).trace)| <= |values| + 1
    ensures |actions| + Measure(|values|, Exec(options, actions)) <= 9 * |values| + 13
  {
    if actions == [] {
      return;
    }
    var s, action := Exec(options, Init(actions)), Last(actions);
    RepliesMove(options, s, action);
    var replies := Replies(Exec(options, actions).trace);
    assert forall k :: 0 <= k < |Replies(s.trace)| ==> Replies(s.trace)[k] == replies[k];
    RunsAreShort(options, values, end, Init(actions));
    MeasureDecreases(options, |values|, s, action);
    if action.Reply? {
      InvExec(options, Init(actions));
      OwingMeansValues(options, s);
    }
  }

  /** At rest the stream is finished: the last answer was an end. */
  lemma RestIsFinished<T>(options: Options, s: Machine<T>)
    requires Inv(options, s) && AtRest(s)
    ensures Finished(s) && s.sinkCalls == CallsOf(Replies(s.trace))
    ensures Replies(s.trace) != [] && Last(Replies(s.trace)).done.Truthy()
  {
    CallsAt(Replies(s.trace));
    assert Drivers(s.stack) == 0;
    assert Pending(s.stack) == [];
  }

  lemma RestIsDelivery<T>(options: Options, values: seq<T>, end: Done, s: Machine<T>)
    requires Inv(options, s) && end.Truthy() && Serves(values, end, Replies(s.trace))
    requires AtRest(s)
    ensures s.sinkCalls == StreamCalls(values, end)
  {
    var replies := Replies(s.trace);
    RestIsFinished(options, s);
    CallsAt(replies);
    assert |replies| <= |values| + 1 by {
      assert |replies| > |values| ==> s.sinkCalls[|values|] == OnDone(end);
    }
    assert forall k :: 0 <= k < |values| ==> s.sinkCalls[k] == OnValue(values[k]);
  }

  /** Every schedule of a source that delivers `values` and then `end` is finite, and when nothing is
      left to do the sink has received exactly that, with `onDone` called once, at the end, and with
      nothing for the monitor to complain about. */
  lemma EveryScheduleDelivers<T>(options: Options, values: seq<T>, end: Done, actions: seq<Action<T>>)
    requires Allowed(options, actions) && end.Truthy()
    requires Serves(values, end, Replies(Exec(options, actions).trace))
    ensures |actions| <= 9 * |values| + 13
    ensures var s := Exec(options, actions);
            AtRest(s) ==> s.sinkCalls == StreamCalls(values, end) && Report(options, s.trace) == []
  {
    var s := Exec(options, actions);
    RunsAreShort(options, values, end, actions);
    WeightIsNat(|values|, s);
    InvExec(options, actions);
    if AtRest(s) {
      RestIsDelivery(options, values, end, s);
      PipelineObeys(options, actions);
    }
  }

  lemma WeightIsNat<T>(length: nat, s: Machine<T>)
    requires |Replies(s.trace)| <= length + 1
    ensures Measure(length, s) >= 0
  {
  }

  /** Nothing is stuck half-way: unless the machine is at rest, some step is enabled. */
  lemma RestIsTheOnlyStop<T(!new)>(s: Machine<T>, value: T)
    requires !s.started ==> s == Fresh()
    ensures AtRest(s) <==> forall action: Action<T> :: !Enabled(s, action)
  {
    if !s.started {
      assert Enabled(s, Start);
    } else if s.stack.Push? {
      assert Enabled(s, Advance);
    } else if s.outstanding != {} {
      var id :| id in s.outstanding;
      assert Enabled(s, Reply(id, End, value));
    }
  }

  lemma ExecSnoc<T>(options: Options, actions: seq<Action<T>>, action: Action<T>)
    requires Allowed(options, actions) && Enabled(Exec(options, actions), action)
    ensures Allowed(options, actions + [action])
    ensures Exec(options, actions + [action]) == Move(options, Exec(options, actions), action)
  {
    assert Init(actions + [action]) == actions && Last(actions + [action]) == action;
  }

  /** The step to take next: `Start`, `Advance`, or the answer that the stream has next. */
  lemma StreamStep<T>(options: Options, values: seq<T>, end: Done, s: Machine<T>, blank: T)
    returns (action: Action<T>)
    requires Inv(options, s) && !AtRest(s) && Serves(values, end, Replies(s.trace))
    ensures Enabled(s, action)
    ensures Serves(values, end, Replies(Move(options, s, action).trace))
  {
    if !s.started {
      action := Start;
    } else if s.stack.Push? {
      action := Advance;
    } else {
      var id, k := s.checker.latest + 1, |Replies(s.trace)|;
      action := if k < |values| then Reply(id, False, values[k]) else Reply(id, end, blank);
      ServesSnoc(values, end, Replies(s.trace), Response(action.done, action.value));
    }
    RepliesMove(options, s, action);
  }

  /** The source's side of it: unless the machine is at rest, some enabled step keeps to the stream. */
  lemma StreamGoesOn<T>(options: Options, values: seq<T>, end: Done, actions: seq<Action<T>>, blank: T)
    returns (action: Action<T>)
    requires Allowed(options, actions) && !AtRest(Exec(options, actions))
    requires Serves(values, end, Replies(Exec(options, actions).trace))
    ensures Allowed(options, actions + [action])
    ensures Serves(values, end, Replies(Exec(options, actions + [action]).trace))
  {
    InvExec(options, actions);
    action := StreamStep(options, values, end, Exec(options, actions), blank);
    ExecSnoc(options, actions, action);
  }

  /** Every run that keeps to the stream can be continued until everything is delivered. */
  lemma {:induction false} StreamCanFinish<T>(
      options: Options, values: seq<T>, end: Done, actions: seq<Action<T>>, blank: T)
    returns (all: seq<Action<T>>)
    requires Allowed(options, actions) && end.Truthy()
    requires Serves(values, end, Replies(Exec(options, actions).trace))
    ensures actions <= all && Allowed(options, all) && AtRest(Exec(options, all))
    ensures Exec(options, all).sinkCalls == StreamCalls(values, end)
    decreases 9 * |values| + 14 - |actions|
  {
    EveryScheduleDelivers(options, values, end, actions);
    if AtRest(Exec(options, actions)) {
      all := actions;
    } else {
      var action := StreamGoesOn(options, values, end, actions, blank);
      all := StreamCanFinish(options, values, end, actions + [action], blank);
      assert actions <= actions + [action] <= all;
    }
  }

  // ----- The two concrete sources -----

  /** Every request of the pipeline reaches the source without an abort. */
  lemma {:induction false} AbortsAreFalse<T>(trace: seq<Event<T>>)
    requires forall k :: 0 <= k < |trace| && trace[k].Request? ==> trace[k] == Request(False, true)
    ensures forall k :: 0 <= k < |CheckerAccounting.Aborts(trace)| ==> CheckerAccounting.Aborts(trace)[k] == False
  {
    if trace != [] {
      forall k | 0 <= k < |Init(trace)| ensures Init(trace)[k] == trace[k] {
      }
      AbortsAreFalse(Init(trace));
      assert Last(trace).Request? ==> trace[|trace| - 1] == Request(False, true);
    }
  }

  /** The requests that the source has answered so far, by their aborts. */
  function AnsweredAborts<T>(trace: seq<Event<T>>): seq<Abort> {
    var aborts, n := CheckerAccounting.Aborts(trace), |Replies(trace)|;
    if n <= |aborts| then aborts[..n] else aborts
  }

  /** The answers in `trace` are the ones that `Values` gives to the requests in `trace`. */
  ghost predicate FromValues<T>(values: seq<T>, blank: T, trace: seq<Event<T>>) {
    Replies(trace) == ValuesReplies(values, AnsweredAborts(trace), blank)
  }

  ghost predicate FromCount(maximum: uint64, trace: seq<Event<uint64>>) {
    Replies(trace) == CountReplies(0, maximum, AnsweredAborts(trace))
  }

  /** `Values` piped through the monitor into Drain: at most 9n + 13 steps, then all the values in
      order and one end. */
  lemma ValuesPipeline<T>(options: Options, values: seq<T>, blank: T, actions: seq<Action<T>>)
    requires Allowed(options, actions) && FromValues(values, blank, Exec(options, actions).trace)
    ensures |actions| <= 9 * |values| + 13
    ensures var s := Exec(options, actions);
            AtRest(s) ==> s.sinkCalls == StreamCalls(values, End) && Report(options, s.trace) == []
  {
    var s := Exec(options, actions);
    InvExec(options, actions);
    AbortsAreFalse(s.trace);
    ValuesStream(values, AnsweredAborts(s.trace), blank);
    EveryScheduleDelivers(options, values, End, actions);
  }

  /** 0, 1, ..., maximum. */
  function UpToMaximum(maximum: uint64): seq<uint64> {
    seq(maximum + 1, k requires 0 <= k <= maximum => k as uint64)
  }

  /** `Count` piped through the monitor into Drain, below the largest 64-bit number. */
  lemma CountPipeline(options: Options, maximum: uint64, actions: seq<Action<uint64>>)
    requires maximum < LARGEST
    requires Allowed(options, actions) && FromCount(maximum, Exec(options, actions).trace)
    ensures |actions| <= 9 * (maximum + 1) + 13
    ensures var s := Exec(options, actions);
            AtRest(s) ==> s.sinkCalls == StreamCalls(UpToMaximum(maximum), End) && Report(options, s.trace) == []
  {
    var s := Exec(options, actions);
    InvExec(options, actions);
    AbortsAreFalse(s.trace);
    CountServes(maximum, AnsweredAborts(s.trace));
    EveryScheduleDelivers(options, UpToMaximum(maximum), End, actions);
  }

  lemma CountServes(maximum: uint64, aborts: seq<Abort>)
    requires maximum < LARGEST
    requires forall k :: 0 <= k < |aborts| ==> aborts[k] == False
    ensures Serves(UpToMaximum(maximum), End, CountReplies(0, maximum, aborts))
  {
    CountStream(0, maximum, aborts);
  }

  /** At the largest 64-bit number the pipeline never comes to rest. */
  lemma CountForever(options: Options, actions: seq<Action<uint64>>)
    requires Allowed(options, actions) && FromCount(LARGEST, Exec(options, actions).trace)
    ensures !AtRest(Exec(options, actions))
  {
    var s := Exec(options, actions);
    InvExec(options, actions);
    AbortsAreFalse(s.trace);
    CountWraps(0, AnsweredAborts(s.trace));
    if AtRest(s) {
      RestIsFinished(options, s);
    }
  }
}
