/** The runtime monitor itself, with its two ways of reporting: collect, or throw at once. */
module ProtocolCheckers {
  import opened EndOrErrors
  import opened CheckerSpec

  /** How a call comes back: normally, or by the exception that eager notification throws.
      It has no `Extract`, so `:- Call();` lets the exception through and drops the value. */
  datatype Result<+R> = Ok(value: R) | Thrown(error: Violation) {
    predicate IsFailure() {
      Thrown?
    }

    function PropagateFailure<U>(): Result<U>
      requires IsFailure()
    {
      Thrown(error)
    }
  }

  /** What eager mode leaves behind when the handler of `event` throws `error`: a callback counts its
      invocation before the checks of Invariants 3 and 4, and nothing else has been written by then. */
  function Abandoned<T>(s: State, event: Event<T>, error: Violation): State {
    if event.Callback? && !error.ValueAfterTermination?
    then s.(counters := s.counters[event.id := s.Counter(event.id) + 1])
    else s
  }

  /** A handler run together with everything that happens inside its last, outgoing call. */
  datatype Activation<T> = Activation(event: Event<T>, nested: seq<Activation<T>>)

  /** The events of a forest of activations in the order in which their handlers are entered. */
  function Preorder<T>(forest: seq<Activation<T>>): seq<Event<T>> {
    if forest == [] then []
    else [forest[0].event] + Preorder(forest[0].nested) + Preorder(forest[1..])
  }

  /** Lenient mode from an arbitrary state, first event first. */
  function RunFrom<T>(options: Options, s: State, trace: seq<Event<T>>): State
    decreases |trace|
  {
    if trace == [] then s else RunFrom(options, Step(options, s, trace[0]), trace[1..])
  }

  /** The first report that a trace would cause from `s`, if any: where eager mode stops. */
  function FirstReport<T>(options: Options, s: State, trace: seq<Event<T>>): Option<Violation>
    decreases |trace|
  {
    if trace == [] then None
    else if Violations(options, s, trace[0]) != [] then Some(Violations(options, s, trace[0])[0])
    else FirstReport(options, Step(options, s, trace[0]), trace[1..])
  }

  /** The state that eager mode ends in: the one its exception leaves behind, if it throws. */
  function EagerEnd<T>(options: Options, s: State, trace: seq<Event<T>>): State
    decreases |trace|
  {
    if trace == [] then s
    else if Violations(options, s, trace[0]) != []
    then Abandoned(s, trace[0], Violations(options, s, trace[0])[0])
    else EagerEnd(options, Step(options, s, trace[0]), trace[1..])
  }

  lemma {:induction false} RunFromConcat<T>(options: Options, s: State, a: seq<Event<T>>, b: seq<Event<T>>)
    ensures RunFrom(options, s, a + b) == RunFrom(options, RunFrom(options, s, a), b)
    ensures FirstReport(options, s, a + b) ==
            if FirstReport(options, s, a).Some? then FirstReport(options, s, a)
            else FirstReport(options, RunFrom(options, s, a), b)
    ensures EagerEnd(options, s, a + b) ==
            if FirstReport(options, s, a).Some? then EagerEnd(options, s, a)
            else EagerEnd(options, RunFrom(options, s, a), b)
    decreases |a|
  {
    if a == [] {
      assert a + b == b;
    } else {
      assert (a + b)[0] == a[0] && (a + b)[1..] == a[1..] + b;
      RunFromConcat(options, Step(options, s, a[0]), a[1..], b);
    }
  }

  /** The source only ever invokes callbacks it has been handed. */
  predicate Playable<T>(options: Options, s: State, trace: seq<Event<T>>)
    decreases |trace|
  {
    trace != [] ==>
      && (trace[0].Callback? ==> trace[0].id in s.counters)
      && Playable(options, Step(options, s, trace[0]), trace[1..])
  }

  lemma {:induction false} PlayableConcat<T>(options: Options, s: State, a: seq<Event<T>>, b: seq<Event<T>>)
    ensures Playable(options, s, a + b) <==> Playable(options, s, a) && Playable(options, RunFrom(options, s, a), b)
    decreases |a|
  {
    if a == [] {
      assert a + b == b;
    } else {
      assert (a + b)[0] == a[0] && (a + b)[1..] == a[1..] + b;
      PlayableConcat(options, Step(options, s, a[0]), a[1..], b);
    }
  }

  /** How running `trace` from `before` ends in either mode. */
  predicate EndsAs<T>(options: Options, before: State, trace: seq<Event<T>>, r: Result<()>, after: State) {
    if options.notifyEagerly && FirstReport(options, before, trace).Some?
    then r == Thrown(FirstReport(options, before, trace).value) && after == EagerEnd(options, before, trace)
    else r == Ok(()) && after == RunFrom(options, before, trace)
  }

  class ProtocolChecker<T> {
    const options: Options
    var i: nat
    var latest: nat
    var skipped: map<nat, bool>
    var aborted: Abort
    var done: Done
    var counters: map<nat, nat>  // one shared counter per callback handed to the source
    var errors: seq<Violation>

    function Now(): State
      reads this
    {
      State(i, latest, skipped, aborted, done, counters, errors)
    }

    constructor (options: Options)
      ensures this.options == options && Now() == INITIAL
    {
      this.options := options;
      i, latest, skipped, counters, errors := 1, 0, map[], map[], [];
      aborted, done := False, False;
    }

    /** A stretch of code that had `reports` to make took `errors` from `before` to `after`. */
    predicate Reported(reports: seq<Violation>, before: seq<Violation>, after: seq<Violation>, outcome: Result<()>) {
      if options.notifyEagerly && reports != []
      then outcome == Thrown(reports[0]) && after == before
      else outcome == Ok(()) && after == before + reports
    }

    method NotifyError(error: Violation) returns (outcome: Result<()>)
      modifies this`errors
      ensures Reported([error], old(errors), errors, outcome)
    {
      if options.notifyEagerly {
        return Thrown(error);
      }
      errors := errors + [error];
      return Ok(());
    }

    /** The checks of a request: Invariants 1 and 6. */
    method CheckRequest(abort: Abort) returns (outcome: Result<()>)
      modifies this`errors
      ensures Reported(RequestViolations(options, old(Now()), abort), old(errors), errors, outcome)
    {
      if aborted.Truthy() || done.Truthy() {
        if !abort.Truthy() {
          :- NotifyError(ValueRequestedAfterTermination);
        }
        if options.forbidExtraRequests {
          if aborted.Truthy() {
            :- NotifyError(RequestAfterAbort);
          }
          if done.Truthy() {
            :- NotifyError(RequestAfterDone);
          }
        }
      }
      return Ok(());
    }

    /** The handler of a request, up to the call it makes to the source. */
    method HandleRequest(abort: Abort, hasCallback: bool) returns (r: Result<Outgoing<T>>)
      modifies this
      ensures var event := Request(abort, hasCallback);
              var reports := Violations(options, old(Now()), event);
              if options.notifyEagerly && reports != []
              then r == Thrown(reports[0]) && Now() == old(Now())
              else r == Ok(Emits(Now(), event)) && Now() == Step(options, old(Now()), event)
    {
      var checked := CheckRequest(abort);
      :- checked;
      if !aborted.Truthy() {
        aborted := abort;
      }
      var id := i;
      i := i + 1;
      if !hasCallback {
        skipped := skipped[id := true];
        return Ok(ToSource(aborted, None));
      }
      counters := counters[id := 0];
      return Ok(ToSource(abort, Some(id)));
    }

    /** Invariant 5: no value once the stream has ended. */
    method CheckDone(id: nat, isDone: Done) returns (outcome: Result<()>)
      modifies this`errors
      ensures Reported(DoneViolations(old(Now()).Terminated(), id, isDone), old(errors), errors, outcome)
    {
      if !isDone.Truthy() && (aborted.Truthy() || done.Truthy()) {
        :- NotifyError(ValueAfterTermination(id));
      }
      return Ok(());
    }

    /** Invariant 3: counts the invocation, then complains about any but the first. */
    method CheckCounter(id: nat) returns (outcome: Result<()>)
      requires id in counters
      modifies this`errors, this`counters
      ensures Reported(CountViolations(old(counters[id]), id), old(errors), errors, outcome)
      ensures counters == old(counters)[id := old(counters[id]) + 1]
    {
      counters := counters[id := counters[id] + 1];
      if counters[id] > 1 {
        :- NotifyError(InvokedAgain(id, counters[id]));
      }
      return Ok(());
    }

    /** The order check, Invariant 4: `latest` moves only when the callback is in order. */
    method CheckOrder(id: nat) returns (outcome: Result<()>)
      modifies this`errors, this`latest
      ensures Reported(OrderViolations(old(latest), id), old(errors), errors, outcome)
      ensures latest == if OrderViolations(old(latest), id) == [] then id else old(latest)
    {
      if id < latest {
        :- NotifyError(InvokedAfter(id, latest));
      } else if id > latest + 1 {
        :- NotifyError(InvokedBefore(id, latest + 1));
      } else {
        latest := id;
      }
      return Ok(());
    }

    /** The three checks of a callback in their order; only the first comes before the count. */
    method CheckCallback(id: nat, isDone: Done) returns (outcome: Result<()>)
      requires id in counters
      modifies this`errors, this`counters, this`latest
      ensures Reported(CallbackViolations(old(Now()), id, isDone), old(errors), errors, outcome)
      ensures counters == if outcome.Thrown? && outcome.error.ValueAfterTermination? then old(counters)
                          else old(counters)[id := old(counters[id]) + 1]
      ensures latest == if outcome.Ok? && OrderViolations(old(latest), id) == [] then id else old(latest)
    {
      var checked := CheckDone(id, isDone);
      :- checked;
      :- CheckCounter(id);
      :- CheckOrder(id);
      return Ok(());
    }

    /** The wrapped callback of request `id`, up to the call it makes to the sink's callback. */
    method HandleCallback(id: nat, isDone: Done, value: T) returns (r: Result<Outgoing<T>>)
      requires id in counters
      modifies this
      ensures var event := Callback(id, isDone, value);
              var reports := Violations(options, old(Now()), event);
              if options.notifyEagerly && reports != []
              then r == Thrown(reports[0]) && Now() == Abandoned(old(Now()), event, reports[0])
              else r == Ok(Emits(Now(), event)) && Now() == Step(options, old(Now()), event)
    {
      var checked := CheckCallback(id, isDone);
      :- checked;
      if !done.Truthy() {
        done := isDone;
      }
      return Ok(ToSink(id, done, value));
    }

    /** Invariant 2 for one id: `skipped` would have to hold false to excuse it. */
    method CheckSkipped(k: nat) returns (outcome: Result<()>)
      modifies this`errors
      ensures Reported(MissingAt(k, skipped), old(errors), errors, outcome)
    {
      if k !in skipped || skipped[k] {
        :- NotifyError(NeverInvoked(k));
      }
      return Ok(());
    }

    /** Invariant 2 for every id from `latest + 1` on. */
    method CheckMissing() returns (outcome: Result<()>)
      modifies this`errors
      ensures Reported(Missing(latest + 1, i, skipped), old(errors), errors, outcome)
    {
      ghost var found := [];
      if i > latest + 1 {
        var k := latest + 1;
        while k < i
          invariant latest + 1 <= k <= i
          invariant Missing(latest + 1, i, skipped) == found + Missing(k, i, skipped)
          invariant errors == old(errors) + found && (options.notifyEagerly ==> found == [])
        {
          ghost var at, rest := MissingAt(k, skipped), Missing(k + 1, i, skipped);
          assert Missing(latest + 1, i, skipped) == found + (at + rest) == (found + at) + rest;
          :- CheckSkipped(k);
          found := found + at;
          k := k + 1;
        }
      }
      return Ok(());
    }

    /** Closes the books. In lenient mode it appends to `errors` and returns a copy of the list. */
    method Terminate() returns (r: Result<seq<Violation>>)
      modifies this`errors
      ensures var reports := TerminateViolations(options, old(Now()));
              if options.notifyEagerly && reports != []
              then r == Thrown(reports[0]) && Now() == old(Now())
              else r == Ok(errors) && Now() == AfterTerminate(options, old(Now()))
    {
      var checked := CheckMissing();
      :- checked;
      if options.enforceStreamTermination && !done.Truthy() && !aborted.Truthy() {
        :- NotifyError(NeverTerminated);
      }
      return Ok(errors);
    }

    /** One handler with the calls nested in its outgoing call. Handlers finish their own updates before
        they call out, so the nested handlers act as if they came after it. */
    method Activate(a: Activation<T>) returns (r: Result<()>)
      requires Playable(options, Now(), Preorder([a]))
      modifies this
      ensures EndsAs(options, old(Now()), Preorder([a]), r, Now())
      decreases a, 0
    {
      ghost var before := Now();
      assert Preorder([a]) == [a.event] + Preorder(a.nested);
      RunFromConcat(options, before, [a.event], Preorder(a.nested));
      PlayableConcat(options, before, [a.event], Preorder(a.nested));
      assert RunFrom(options, before, [a.event]) == Step(options, before, a.event);
      var outgoing: Result<Outgoing<T>>;
      match a.event {
        case Request(abort, hasCallback) => outgoing := HandleRequest(abort, hasCallback);
        case Callback(id, isDone, value) => outgoing := HandleCallback(id, isDone, value);
      }
      :- outgoing;
      r := ActivateAll(a.nested);
    }

    /** The calls that one outgoing call makes back into the checker, one after another. */
    method ActivateAll(forest: seq<Activation<T>>) returns (r: Result<()>)
      requires Playable(options, Now(), Preorder(forest))
      modifies this
      ensures EndsAs(options, old(Now()), Preorder(forest), r, Now())
      decreases forest, 1
    {
      if forest == [] {
        return Ok(());
      }
      var first, rest := forest[0], forest[1..];
      assert Preorder(forest) == Preorder([first]) + Preorder(rest);
      RunFromConcat(options, Now(), Preorder([first]), Preorder(rest));
      PlayableConcat(options, Now(), Preorder([first]), Preorder(rest));
      :- Activate(first);
      r := ActivateAll(rest);
    }
  }
}
