/** Which reports the monitor makes: the whole list, event by event, told from the trace alone. */
module CheckerReports {
  import opened EndOrErrors
  import opened CheckerSpec
  import opened ProtocolCheckers
  import opened CheckerTheorems
  import opened CheckerAccounting

  // ----- The reports, stated without the monitor -----

  /** The list of `v` alone if `wrong`, and otherwise nothing. */
  function When(wrong: bool, v: Violation): seq<Violation> {
    if wrong then [v] else []
  }

  ghost predicate Ended<T>(trace: seq<Event<T>>) {
    EndedBefore(trace, |trace|)
  }

  /** Some request of the trace carried a truthy abort. */
  ghost predicate WasAborted<T>(trace: seq<Event<T>>) {
    exists j :: 0 <= j < |trace| && trace[j].Request? && trace[j].abort.Truthy()
  }

  /** Some callback of the trace carried a truthy done. */
  ghost predicate WasDone<T>(trace: seq<Event<T>>) {
    exists j :: 0 <= j < |trace| && trace[j].Callback? && trace[j].done.Truthy()
  }

  /** `m` is the largest number such that 1, 2, ..., m occurs in this order among the ids. */
  ghost predicate LargestInOrder(m: nat, ids: seq<nat>) {
    forall k: nat :: OccursInOrder(k, ids) <==> k <= m
  }

  ghost function Reached<T>(trace: seq<Event<T>>): (m: nat)
    ensures LargestInOrder(m, Ids(trace))
  {
    assert exists m: nat :: LargestInOrder(m, Ids(trace)) by {
      LatestReaches(Options(false, false, false), trace);
    }
    var m: nat :| LargestInOrder(m, Ids(trace));
    m
  }

  /** Invariants 1 and 6: what a request adds after the events `before`. */
  ghost function RequestReports<T>(options: Options, before: seq<Event<T>>, abort: Abort): seq<Violation> {
    When(Ended(before) && !abort.Truthy(), ValueRequestedAfterTermination)
    + When(options.forbidExtraRequests && WasAborted(before), RequestAfterAbort)
    + When(options.forbidExtraRequests && WasDone(before), RequestAfterDone)
  }

  /** Invariant 4: what callback `id` adds when 1, 2, ..., m have been invoked in order. */
  function OutOfOrderReports(m: nat, id: nat): seq<Violation> {
    When(id < m, InvokedAfter(id, m)) + When(id > m + 1, InvokedBefore(id, m + 1))
  }

  /** Invariants 5, 3 and 4: what the invocation of callback `id`, being number `times`, adds. */
  ghost function CallbackReports<T>(before: seq<Event<T>>, id: nat, done: Done, times: nat): seq<Violation> {
    When(Ended(before) && !done.Truthy(), ValueAfterTermination(id))
    + When(times > 1, InvokedAgain(id, times))
    + OutOfOrderReports(Reached(before), id)
  }

  ghost function ReportsOf<T>(options: Options, before: seq<Event<T>>, event: Event<T>): seq<Violation> {
    match event
    case Request(abort, _) => RequestReports(options, before, abort)
    case Callback(id, done, _) => CallbackReports(before, id, done, Times(Ids(before + [event]), id))
  }

  ghost function AllReports<T>(options: Options, trace: seq<Event<T>>): seq<Violation> {
    if trace == [] then [] else AllReports(options, Init(trace)) + ReportsOf(options, Init(trace), Last(trace))
  }

  /** Invariant 2 for the ids above `m` up to `n`, in ascending order. */
  function NeverInvokedIn(m: nat, n: nat): seq<Violation> {
    seq(if m <= n then n - m else 0, j requires 0 <= j => NeverInvoked(m + 1 + j))
  }

  /** Invariants 2 and 7: what `Terminate` adds at the end of the trace. */
  ghost function FinalReports<T>(options: Options, trace: seq<Event<T>>): seq<Violation> {
    NeverInvokedIn(Reached(trace), Requests(trace))
    + When(options.enforceStreamTermination && !Ended(trace), NeverTerminated)
  }

  // ----- The monitor makes exactly these -----

  lemma LatestReaches<T>(options: Options, trace: seq<Event<T>>)
    ensures LargestInOrder(Run(options, trace).latest, Ids(trace))
  {
    forall k: nat ensures OccursInOrder(k, Ids(trace)) <==> k <= Run(options, trace).latest {
      LatestIsLargest(options, trace, k);
    }
  }

  /** `latest` is what the trace has reached. */
  lemma LatestIsReached<T>(options: Options, trace: seq<Event<T>>)
    ensures Run(options, trace).latest == Reached(trace)
  {
    LatestReaches(options, trace);
    var latest, m := Run(options, trace).latest, Reached(trace);
    assert OccursInOrder(latest, Ids(trace)) && OccursInOrder(m, Ids(trace));
  }

  lemma StepFlags<T>(options: Options, s: State, event: Event<T>)
    ensures Step(options, s, event).aborted.Truthy() <==>
            s.aborted.Truthy() || (event.Request? && event.abort.Truthy())
    ensures Step(options, s, event).done.Truthy() <==>
            s.done.Truthy() || (event.Callback? && event.done.Truthy())
  {
  }

  lemma EndsSnoc<T>(trace: seq<Event<T>>)
    requires trace != []
    ensures WasAborted(trace) <==> WasAborted(Init(trace)) || (Last(trace).Request? && Last(trace).abort.Truthy())
    ensures WasDone(trace) <==> WasDone(Init(trace)) || (Last(trace).Callback? && Last(trace).done.Truthy())
  {
    assert forall j :: 0 <= j < |trace| - 1 ==> Init(trace)[j] == trace[j];
  }

  lemma {:induction false} FlagsSay<T>(options: Options, trace: seq<Event<T>>)
    ensures Run(options, trace).aborted.Truthy() <==> WasAborted(trace)
    ensures Run(options, trace).done.Truthy() <==> WasDone(trace)
  {
    if trace != [] {
      FlagsSay(options, Init(trace));
      EndsSnoc(trace);
      StepFlags(options, Run(options, Init(trace)), Last(trace));
    }
  }

  lemma StepRequest<T>(options: Options, s: State, event: Event<T>)
    requires event.Request?
    ensures Step(options, s, event).errors == s.errors
            + When(s.Terminated() && !event.abort.Truthy(), ValueRequestedAfterTermination)
            + When(options.forbidExtraRequests && s.aborted.Truthy(), RequestAfterAbort)
            + When(options.forbidExtraRequests && s.done.Truthy(), RequestAfterDone)
  {
  }

  /** On every trace, and whatever the options: the reports that a request adds. */
  lemma RequestExact<T>(options: Options, before: seq<Event<T>>, event: Event<T>)
    requires event.Request?
    ensures Run(options, before + [event]).errors ==
            Run(options, before).errors + RequestReports(options, before, event.abort)
  {
    Extend(options, before, event);
    StepRequest(options, Run(options, before), event);
    FlagsSay(options, before);
    StreamEnded(options, before);
  }

  lemma StepCallback<T>(options: Options, s: State, event: Event<T>)
    requires event.Callback?
    ensures var t := Step(options, s, event);
            t.errors == s.errors
            + When(s.Terminated() && !event.done.Truthy(), ValueAfterTermination(event.id))
            + When(t.Counter(event.id) > 1, InvokedAgain(event.id, t.Counter(event.id)))
            + OutOfOrderReports(s.latest, event.id)
  {
  }

  lemma CallbackAdds<T>(options: Options, before: seq<Event<T>>, s: State, event: Event<T>)
    requires event.Callback?
    requires s.latest == Reached(before) && (s.Terminated() <==> Ended(before))
    ensures var t := Step(options, s, event);
            t.errors == s.errors + CallbackReports(before, event.id, event.done, t.Counter(event.id))
  {
    StepCallback(options, s, event);
  }

  /** On every trace: the reports that the invocation of a callback adds. The number of times is what
      the callback's counter holds; where callbacks exist only after their requests, that is the number
      of its invocations up to and including this one. */
  lemma CallbackExact<T>(options: Options, before: seq<Event<T>>, event: Event<T>)
    requires event.Callback?
    ensures var s := Run(options, before + [event]);
            && s.errors == Run(options, before).errors
                           + CallbackReports(before, event.id, event.done, s.Counter(event.id))
            && (Causal(before + [event]) ==> s.Counter(event.id) == Times(Ids(before + [event]), event.id))
  {
    LatestIsReached(options, before);
    StreamEnded(options, before);
    CallbackAdds(options, before, Run(options, before), event);
    Extend(options, before, event);
    if Causal(before + [event]) {
      CountersCount(options, before + [event], event.id);
    }
  }

  /** The loop of `Terminate` names the ids in ascending order. */
  lemma {:induction false} MissingAscends(k: nat, i: nat, skipped: map<nat, bool>)
    requires k >= 1 && ExcusesNone(skipped)
    ensures Missing(k, i, skipped) == NeverInvokedIn(k - 1, if i > 0 then i - 1 else 0)
    decreases i - k
  {
    if k < i {
      MissingAscends(k + 1, i, skipped);
      assert NeverInvokedIn(k - 1, i - 1) == [NeverInvoked(k)] + NeverInvokedIn(k, i - 1);
    }
  }

  lemma TerminateAdds(options: Options, s: State)
    requires ExcusesNone(s.skipped) && s.i >= 1
    ensures TerminateViolations(options, s) ==
            NeverInvokedIn(s.latest, s.i - 1)
            + When(options.enforceStreamTermination && !s.Terminated(), NeverTerminated)
  {
    MissingAscends(s.latest + 1, s.i, s.skipped);
  }

  /** On every trace: the reports that `Terminate` adds. */
  lemma TerminateExact<T>(options: Options, trace: seq<Event<T>>)
    ensures TerminateViolations(options, Run(options, trace)) == FinalReports(options, trace)
  {
    var s := Run(options, trace);
    assert s.i == Requests(trace) + 1 && ExcusesNone(s.skipped) && (s.Terminated() <==> Ended(trace)) by {
      FieldsMean(options, trace);
    }
    LatestIsReached(options, trace);
    TerminateAdds(options, s);
  }

  lemma {:induction false} AllExact<T>(options: Options, trace: seq<Event<T>>)
    requires Causal(trace)
    ensures Run(options, trace).errors == AllReports(options, trace)
  {
    if trace != [] {
      var init, event := Init(trace), Last(trace);
      assert trace == init + [event];
      CausalInit(trace);
      AllExact(options, init);
      if event.Request? {
        RequestExact(options, init, event);
      } else {
        CallbackExact(options, init, event);
      }
    }
  }

  /** The list that lenient mode returns, in full: the reports of the events in their order, then those
      of `Terminate`. */
  lemma ReportExact<T>(options: Options, trace: seq<Event<T>>)
    requires Causal(trace)
    ensures Report(options, trace) == AllReports(options, trace) + FinalReports(options, trace)
  {
    AllExact(options, trace);
    TerminateExact(options, trace);
  }

  /** Eager mode throws the first of these reports and nothing else. */
  lemma EagerExact<T>(options: Options, trace: seq<Event<T>>, r: Result<()>, after: State)
    requires Causal(trace) && options.notifyEagerly
    requires EndsAs(options, INITIAL, trace, r, after)
    ensures r == if AllReports(options, trace) == [] then Ok(()) else Thrown(AllReports(options, trace)[0])
  {
    AllExact(options, trace);
    FirstReportIsFirstError(options, trace);
  }

  // ----- What the source can do -----

  /** Request `id` was made and carried a callback. */
  ghost predicate HandedOut<T>(trace: seq<Event<T>>, id: nat) {
    exists j :: 0 <= j < |trace| && trace[j].Request? && trace[j].hasCallback && Requests(trace[..j + 1]) == id
  }

  /** The source invokes no callback before the request that carried it. */
  ghost predicate HandedFirst<T>(trace: seq<Event<T>>) {
    forall k :: 0 <= k < |trace| && trace[k].Callback? ==> HandedOut(trace[..k], trace[k].id)
  }

  lemma HandedOutSnoc<T>(trace: seq<Event<T>>, id: nat)
    requires trace != []
    ensures HandedOut(trace, id) <==>
            HandedOut(Init(trace), id) || (Last(trace).Request? && Last(trace).hasCallback && id == Requests(trace))
  {
    var init := Init(trace);
    assert trace[..|trace|] == trace;
    forall j | 0 <= j < |init| ensures init[..j + 1] == trace[..j + 1] && init[j] == trace[j] {
    }
  }

  lemma HandedFirstSnoc<T>(trace: seq<Event<T>>)
    requires trace != []
    ensures HandedFirst(trace) <==>
            HandedFirst(Init(trace)) && (Last(trace).Callback? ==> HandedOut(Init(trace), Last(trace).id))
  {
    forall k | 0 <= k < |trace| - 1 ensures Init(trace)[..k] == trace[..k] && Init(trace)[k] == trace[k] {
    }
  }

  lemma {:induction false} CountersHold<T>(options: Options, trace: seq<Event<T>>, id: nat)
    requires HandedFirst(trace)
    ensures id in Run(options, trace).counters <==> HandedOut(trace, id)
  {
    if trace != [] {
      HandedFirstSnoc(trace);
      HandedOutSnoc(trace, id);
      CountersHold(options, Init(trace), id);
      FieldsMean(options, Init(trace));
    }
  }

  lemma PlayableSnoc<T>(options: Options, trace: seq<Event<T>>)
    requires trace != []
    ensures Playable(options, INITIAL, trace) <==>
            && Playable(options, INITIAL, Init(trace))
            && (Last(trace).Callback? ==> Last(trace).id in Run(options, Init(trace)).counters)
  {
    assert trace == Init(trace) + [Last(trace)];
    PlayableConcat(options, INITIAL, Init(trace), [Last(trace)]);
    FirstReportIsFirstError(options, Init(trace));
  }

  /** The traces on which the class is proved are exactly those of a source that invokes only callbacks
      it has been handed, any number of times and in any order. */
  lemma {:induction false} PlayableExactly<T>(options: Options, trace: seq<Event<T>>)
    ensures Playable(options, INITIAL, trace) <==> HandedFirst(trace)
  {
    if trace != [] {
      PlayableExactly(options, Init(trace));
      PlayableSnoc(options, trace);
      HandedFirstSnoc(trace);
      if HandedFirst(Init(trace)) && Last(trace).Callback? {
        CountersHold(options, Init(trace), Last(trace).id);
      }
    }
  }

  lemma {:induction false} HandedOutIsIssued<T>(trace: seq<Event<T>>, id: nat)
    requires HandedOut(trace, id)
    ensures 1 <= id <= Requests(trace)
  {
    HandedOutSnoc(trace, id);
    if HandedOut(Init(trace), id) {
      HandedOutIsIssued(Init(trace), id);
    }
  }

  /** So every theorem about causal traces holds of the class. */
  lemma PlayableIsCausal<T>(options: Options, trace: seq<Event<T>>)
    requires Playable(options, INITIAL, trace)
    ensures Causal(trace)
  {
    PlayableExactly(options, trace);
    forall k | 0 <= k < |trace| && trace[k].Callback?
      ensures 1 <= trace[k].id <= Requests(trace[..k])
    {
      HandedOutIsIssued(trace[..k], trace[k].id);
    }
  }
}
