/**
 The pipeline in its own form: Drain, the Looper inside it, the monitor and a Values source as objects
 whose methods call and re-enter one another. The ghost history of a run is a run of PipelineMachine,
 so that everything proved about the machine holds of the objects.
 */
module DrainRuns {
  import opened EndOrErrors
  import opened CheckerSpec
  import opened ProtocolCheckers
  import opened Sources
  import opened PipelineMachine
  import opened PipelineInvariants
  import opened PipelineTheorems
  import opened Reducing
  import Trampoline = LooperMachine

  /** An answer that the source has not given yet. */
  datatype Debt<T> = Debt(id: nat, response: Response<T>)

  class DrainRun<A, T> {
    const checker: ProtocolChecker<T>
    const source: Values<T>
    const drain: Drain<A, T>
    var nextCalled: bool                // the two flags of the Looper that Sink creates
    var looperFunctionReturned: bool
    var plan: seq<bool>                 // which of the coming requests are answered later
    var owed: Option<Debt<T>>           // the answer waiting in the event loop
    ghost const values: seq<T>
    ghost const initial: A
    ghost var history: seq<Action<T>>

    ghost predicate Recorded()
      reads this`history
    {
      Allowed(checker.options, history)
    }

    /** Where the machine is after the steps taken so far. */
    ghost function Machine(): PipelineMachine.Machine<T>
      requires Recorded()
      reads this`history
    {
      Exec(checker.options, history)
    }

    /** The monitor and the reducer are in the states that the machine gives them. */
    ghost predicate Linked()
      requires Recorded()
      reads this`history, checker, drain.reduce
    {
      && Machine().checker == checker.Now()
      && drain.reduce.Now() == ReduceRun(drain.reduce.reducer, initial, Machine().sinkCalls)
    }

    /** So are the flags of the Looper. */
    ghost predicate Flagged()
      requires Recorded()
      reads this`history, this`nextCalled, this`looperFunctionReturned
    {
      Machine().flags == Trampoline.Flags(nextCalled, looperFunctionReturned)
    }

    /** The answer to request number `k`, counted from 0. */
    ghost predicate Expected(k: nat, response: Response<T>) {
      if k < |values| then response == Response(False, values[k]) else response.done == End
    }

    ghost function Remaining(k: nat): seq<T> {
      if k <= |values| then values[k..] else []
    }

    /** What the source has answered, what it has taken out of its list without having answered yet, and
        what it has left. */
    ghost predicate Fed(taken: Option<Response<T>>)
      requires Recorded()
      reads this`history, source
    {
      var k := |Replies(Machine().trace)|;
      && Serves(values, End, Replies(Machine().trace))
      && (taken.Some? ==> Expected(k, taken.value))
      && source.values == Remaining(if taken.None? then k else k + 1)
    }

    /** The source has answered or is on record as owing an answer. */
    ghost predicate Settled()
      reads this`history, this`owed, checker, source, drain.reduce
    {
      && Recorded()
      && Linked()
      && Fed(if owed.None? then None else Some(owed.value.response))
      && Machine().outstanding == (if owed.None? then {} else {owed.value.id})
    }

    ghost predicate Valid()
      reads this, checker, source, drain.reduce
    {
      Settled() && Flagged()
    }

    /** How many steps the run can still take. */
    ghost function Budget(): int
      reads this`history
    {
      9 * |values| + 13 - |history|
    }

    ghost method Record(action: Action<T>)
      requires Recorded() && Enabled(Machine(), action)
      modifies this`history
      ensures Recorded() && Machine() == Move(checker.options, old(Machine()), action)
      ensures |history| == old(|history|) + 1
      ensures Inv(checker.options, Machine())
    {
      history := history + [action];
      assert Init(history) == old(history) && Last(history) == action;
      InvExec(checker.options, history);
    }

    constructor (
        options: Options, values: seq<T>, blank: T, reducer: (A, T) -> A, initial: A, plan: seq<bool>)
      ensures Valid() && history == [] && this.values == values && this.initial == initial
      ensures checker.options == options && drain.reduce.reducer == reducer
      ensures fresh(checker) && fresh(source) && fresh(drain.reduce)
    {
      checker := new ProtocolChecker(options);
      source := new Values(values, blank);
      var reduce := new Reduce(reducer, initial);
      var sink := reduce.Sink();
      drain := sink;
      nextCalled, looperFunctionReturned := false, true;
      this.plan, owed := plan, None;
      this.values, this.initial := values, initial;
      history := [];
    }

    lemma InBudget()
      requires Recorded() && Serves(values, End, Replies(Machine().trace))
      ensures Budget() >= 0 && Inv(checker.options, Machine())
      ensures history != [] ==> Machine().started
    {
      if history != [] {
        FirstStepStarts(checker.options, history);
      }
      EveryScheduleDelivers(checker.options, values, End, history);
      InvExec(checker.options, history);
    }

    predicate CanReturn(frame: Frame<T>) {
      match frame
      case Body(_, issued) => issued
      case Asked(_) => true
      case Answer(phase) => phase.Leaving?
      case Driver => false
    }

    /** An activation with nothing left to do returns. */
    ghost method Return()
      requires Valid() && Machine().stack.Push? && CanReturn(Machine().stack.top)
      modifies this`history
      ensures Valid() && Machine().stack == old(Machine().stack.below) && |history| == old(|history|) + 1
    {
      Record(Advance);
      assert Machine() == old(Machine()).(stack := old(Machine().stack.below));
    }

    /** An answer arrives at the monitor. */
    ghost method RecordReply(id: nat, response: Response<T>)
      requires Recorded() && Enabled(Machine(), Reply(id, response.done, response.value))
      modifies this`history
      ensures Recorded() && |history| == old(|history|) + 1
      ensures Machine() == Respond(checker.options, old(Machine()), id, response.done, response.value)
      ensures Replies(Machine().trace) == old(Replies(Machine().trace)) + [response]
    {
      Record(Reply(id, response.done, response.value));
      RepliesMove(checker.options, old(Machine()), Reply(id, response.done, response.value));
    }

    /** Entering `next`. */
    ghost method RecordEntry()
      requires Settled() && Machine().stack.Push? && Machine().stack.top == Answer(CallingNext)
      modifies this`history
      ensures Settled() && |history| == old(|history|) + 1
      ensures var (flags, drives) := Trampoline.EnterNext(old(Machine().flags));
              var left := Push(Answer(Leaving), old(Machine().stack.below));
              && Machine().flags == flags
              && Machine().stack == if drives then Push(Driver, left) else left
    {
      Record(Advance);
      assert Machine() == old(Machine()).(flags := Machine().flags, stack := Machine().stack);
    }

    /** The loop test of `next`. */
    ghost method RecordTest()
      requires Settled() && Machine().stack.Push? && Machine().stack.top.Driver?
      modifies this`history
      ensures Settled() && |history| == old(|history|) + 1
      ensures var (flags, again) := Trampoline.TestDriver(old(Machine().flags));
              && Machine().flags == flags
              && Machine().stack ==
                 if again then Push(Body(false, false), old(Machine().stack)) else old(Machine().stack.below)
    {
      Record(Advance);
      assert Machine() == old(Machine()).(flags := Machine().flags, stack := Machine().stack);
    }

    /** The lambda that Drain gives to its Looper. */
    method LooperFunction()
      requires Valid() && Issuing(Machine().stack)
      modifies this, checker, source, drain.reduce
      ensures Valid() && Machine().stack == old(Machine().stack.below) && |history| > old(|history|)
      decreases Budget(), 0
    {
      InBudget();
      IssueIsClean(checker.options, Machine());
      var called := checker.HandleRequest(False, true);
      Record(Advance);
      TraceSnoc(old(Machine().trace), Request(False, true));
      AskSource(called.value.callback.value, called.value.abort);
      Return();
    }

    lemma TakeNext(k: nat)
      ensures var (rest, response) := ValuesReply(Remaining(k), False, source.blank);
              rest == Remaining(k + 1) && Expected(k, response)
    {
    }

    /** The source: it answers inside the call or leaves its answer to the event loop. */
    method AskSource(id: nat, abort: Abort)
      requires Recorded() && Linked() && Flagged() && Machine().stack.Push? && Machine().stack.top == Asked(id)
      requires Machine().outstanding == {id} && owed.None? && abort == False && Fed(None)
      modifies this, checker, source, drain.reduce
      ensures Valid() && Machine().stack == old(Machine().stack.below) && |history| > old(|history|)
      decreases Budget(), 1
    {
      InBudget();
      TakeNext(|Replies(Machine().trace)|);
      var response := source.Source(abort);
      assert Fed(Some(response));
      var later := |plan| > 0 && plan[0];
      plan := if |plan| > 0 then plan[1..] else [];
      if later {
        owed := Some(Debt(id, response));
      } else {
        HandleReply(id, response);
      }
      Return();
    }

    /** The monitor's callback, and in it Drain's. */
    method HandleReply(id: nat, response: Response<T>)
      requires Recorded() && Linked() && Flagged() && (Machine().stack.Bottom? || Machine().stack.top.Asked?)
      requires Machine().outstanding == {id} && owed.None? && Fed(Some(response))
      modifies this, checker, source, drain.reduce
      ensures Valid() && Machine().stack == old(Machine().stack) && |history| > old(|history|)
      decreases Budget(), 0
    {
      InBudget();
      var outgoing := PassOn(id, response);
      HandleAnswer(outgoing.done, outgoing.value);
    }

    /** The monitor's part of it. */
    method PassOn(id: nat, response: Response<T>) returns (outgoing: Outgoing<T>)
      requires Recorded() && Linked() && Flagged() && (Machine().stack.Bottom? || Machine().stack.top.Asked?)
      requires Machine().outstanding == {id} && owed.None? && Fed(Some(response))
      modifies this`history, checker
      ensures Valid() && |history| == old(|history|) + 1 && outgoing.ToSink?
      ensures Machine().stack == Push(Answer(Delivering(outgoing.done, outgoing.value)), old(Machine().stack))
    {
      InBudget();
      ReplyIsClean(checker.options, Machine(), id, response.done);
      var called := checker.HandleCallback(id, response.done, response.value);
      RecordReply(id, response);
      ServesSnoc(values, End, old(Replies(Machine().trace)), response);
      outgoing := called.value;
    }

    /** Drain's callback. */
    method HandleAnswer(e: Done, value: T)
      requires Valid() && Machine().stack.Push? && Machine().stack.top == Answer(Delivering(e, value))
      modifies this, checker, source, drain.reduce
      ensures Valid() && Machine().stack == old(Machine().stack.below) && |history| > old(|history|)
      decreases Budget(), 0
    {
      InBudget();
      ghost var s := Machine();
      var phase := drain.HandleAnswer(e, value);
      Record(Advance);
      assert Machine() == s.(sinkCalls := s.sinkCalls + [SinkCallOf(e, value)],
                             stack := Push(Answer(phase), s.stack.below));
      ReduceRunSnoc(drain.reduce.reducer, initial, s.sinkCalls, SinkCallOf(e, value));
      if phase.CallingNext? {
        Next();
      }
      Return();
    }

    /** The closure `next` of Drain's Looper. */
    method Next()
      requires Valid() && Machine().stack.Push? && Machine().stack.top == Answer(CallingNext)
      modifies this, checker, source, drain.reduce
      ensures Valid() && Machine().stack == Push(Answer(Leaving), old(Machine().stack.below))
      ensures |history| > old(|history|)
      decreases Budget(), 0
    {
      InBudget();
      RecordEntry();
      nextCalled := true;
      if !looperFunctionReturned {
        return;
      }
      looperFunctionReturned := false;
      while nextCalled
        invariant Valid() && !looperFunctionReturned && |history| > old(|history|)
        invariant Machine().stack == Push(Driver, Push(Answer(Leaving), old(Machine().stack.below)))
        decreases Budget()
      {
        InBudget();
        RecordTest();
        nextCalled := false;
        LooperFunction();
        InBudget();
      }
      RecordTest();
      looperFunctionReturned := true;
    }

    method Start()
      requires Valid() && history == []
      modifies this, checker, source, drain.reduce
      ensures Valid() && Machine().started && Machine().stack.Bottom?
    {
      Record(Action.Start);
      LooperFunction();
      InBudget();
    }

    lemma AtRestAllIsDone()
      requires Valid() && AtRest(Machine())
      ensures drain.reduce.results == [(End, Foldl(drain.reduce.reducer, initial, values))]
      ensures checker.errors == [] && TerminateViolations(checker.options, checker.Now()) == []
    {
      InBudget();
      EveryScheduleDelivers(checker.options, values, End, history);
      ReduceOfStream(checker.options, drain.reduce.reducer, initial, values, End, history);
    }

    /** The event loop, and at the end the report of the monitor: the reducer's callback has run once,
        with the end of the stream and the fold of all its values, and there is nothing to report. */
    method RunEvents() returns (report: Result<seq<Violation>>)
      requires Valid() && Machine().started && Machine().stack.Bottom?
      modifies this, checker, source, drain.reduce
      ensures drain.reduce.results == [(End, Foldl(drain.reduce.reducer, initial, values))]
      ensures report == Ok([])
    {
      while owed.Some?
        invariant Valid() && Machine().started && Machine().stack.Bottom?
        decreases Budget()
      {
        InBudget();
        var debt := owed.value;
        owed := None;
        HandleReply(debt.id, debt.response);
        InBudget();
      }
      AtRestAllIsDone();
      report := checker.Terminate();
    }
  }
}
