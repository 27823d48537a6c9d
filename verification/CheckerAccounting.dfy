/** Exact accounts of single fields and single kinds of report, on good and bad traces alike. */
module CheckerAccounting {
  import opened EndOrErrors
  import opened CheckerSpec
  import opened ProtocolCheckers
  import opened CheckerTheorems

  // ----- `latest` -----

  /** The positions `at` pick 1, 2, ..., k out of `ids`, in this order. */
  ghost predicate Embeds(k: nat, ids: seq<nat>, at: seq<nat>) {
    && |at| == k
    && (forall j :: 0 <= j < k ==> at[j] < |ids| && ids[at[j]] == j + 1)
    && (forall j, j' :: 0 <= j < j' < k ==> at[j] < at[j'])
  }

  ghost predicate OccursInOrder(k: nat, ids: seq<nat>) {
    exists at :: Embeds(k, ids, at)
  }

  lemma {:induction false} LatestOccurs<T>(options: Options, trace: seq<Event<T>>) returns (at: seq<nat>)
    ensures Embeds(Run(options, trace).latest, Ids(trace), at)
  {
    at := [];
    if trace != [] {
      at := LatestOccurs(options, Init(trace));
      if Last(trace).Callback? && Last(trace).id == Run(options, Init(trace)).latest + 1 {
        at := at + [|Ids(Init(trace))|];
      }
    }
  }

  lemma {:induction false} LatestBounds<T>(options: Options, trace: seq<Event<T>>, at: seq<nat>)
    requires Embeds(|at|, Ids(trace), at)
    ensures |at| <= Run(options, trace).latest
  {
    if at == [] {
      return;
    }
    var init := Init(trace);
    if Last(trace).Request? || Last(at) < |Ids(init)| {
      LatestBounds(options, init, at);
    } else {
      assert Embeds(|at| - 1, Ids(init), Init(at));
      LatestBounds(options, init, Init(at));
    }
  }

  /** `latest` is the largest k such that the invoked ids contain 1, 2, ..., k in this order. */
  lemma LatestIsLargest<T>(options: Options, trace: seq<Event<T>>, k: nat)
    ensures OccursInOrder(k, Ids(trace)) <==> k <= Run(options, trace).latest
  {
    if OccursInOrder(k, Ids(trace)) {
      var at :| Embeds(k, Ids(trace), at);
      LatestBounds(options, trace, at);
    }
    if k <= Run(options, trace).latest {
      var at := LatestOccurs(options, trace);
      assert Embeds(k, Ids(trace), at[..k]);
    }
  }

  // ----- Invariant 2 -----

  predicate OutOfOrder(v: Violation) {
    v.InvokedAfter? || v.InvokedBefore?
  }

  /** There is no Invariant 4 report in the list. */
  ghost predicate InOrder(errors: seq<Violation>) {
    forall v :: v in errors ==> !OutOfOrder(v)
  }

  lemma StepInOrder<T>(options: Options, s: State, event: Event<T>)
    ensures InOrder(Step(options, s, event).errors) <==>
            && InOrder(s.errors)
            && (event.Callback? ==> s.latest <= event.id <= s.latest + 1)
    ensures event.Callback? && s.latest <= event.id <= s.latest + 1 ==>
              Step(options, s, event).latest == event.id
  {
    var added := Violations(options, s, event);
    assert Step(options, s, event).errors == s.errors + added;
    if event.Callback? && !(s.latest <= event.id <= s.latest + 1) {
      assert OutOfOrder(Last(added)) && Last(added) in added;
    }
  }

  lemma {:induction false} InOrderInvokes<T>(options: Options, trace: seq<Event<T>>)
    requires Causal(trace)
    requires InOrder(Run(options, trace).errors)
    ensures forall id :: id in Ids(trace) <==> 1 <= id <= Run(options, trace).latest
  {
    if trace != [] {
      CausalInit(trace);
      StepInOrder(options, Run(options, Init(trace)), Last(trace));
      InOrderInvokes(options, Init(trace));
    }
  }

  lemma {:induction false} MissingMember(k: nat, i: nat, skipped: map<nat, bool>, id: nat)
    requires ExcusesNone(skipped)
    ensures NeverInvoked(id) in Missing(k, i, skipped) <==> k <= id < i
    decreases i - k
  {
    if k < i {
      MissingMember(k + 1, i, skipped, id);
    }
  }

  /** One Invariant 2 report for each of the `i - 1 - latest` last requests, whatever `skipped` holds. */
  lemma TerminateCountsMissing<T>(options: Options, trace: seq<Event<T>>)
    requires Causal(trace)
    ensures var s := Run(options, trace);
            s.latest < s.i && |Missing(s.latest + 1, s.i, s.skipped)| == s.i - 1 - s.latest
  {
    var s := Run(options, trace);
    assert s.latest < s.i by {
      LatestBelowNext(options, trace);
    }
    assert ExcusesNone(s.skipped) by {
      FieldsMean(options, trace);
    }
    MissingCount(s.latest + 1, s.i, s.skipped);
  }

  /** Which ids `Terminate` names, on every trace: the requests whose id does not close an occurrence of
      1, 2, ..., id among the invoked ids. */
  lemma TerminateNames<T>(options: Options, trace: seq<Event<T>>, id: nat)
    requires Causal(trace)
    ensures Named(Run(options, trace), id) <==> id <= Requests(trace) && !OccursInOrder(id, Ids(trace))
  {
    var s := Run(options, trace);
    assert s.i == Requests(trace) + 1 && ExcusesNone(s.skipped) by {
      FieldsMean(options, trace);
    }
    NamedRange(s, id);
    LatestIsLargest(options, trace, id);
  }

  /** Every invoked id closes an occurrence of 1, 2, ..., id among the invoked ids. */
  ghost predicate InvokedInOrder<T>(trace: seq<Event<T>>) {
    forall id :: id in Ids(trace) ==> OccursInOrder(id, Ids(trace))
  }

  ghost predicate NamesExact<T>(options: Options, trace: seq<Event<T>>) {
    forall id: nat :: Named(Run(options, trace), id) <==> 1 <= id <= Requests(trace) && id !in Ids(trace)
  }

  lemma OccursInvokes(k: nat, ids: seq<nat>)
    requires k >= 1 && OccursInOrder(k, ids)
    ensures k in ids
  {
    var at :| Embeds(k, ids, at);
    assert ids[at[k - 1]] == k;
  }

  /** The ids that `Terminate` names are exactly the requests whose callback was never invoked if and
      only if every invoked id is reached in order. */
  lemma NamesExactly<T>(options: Options, trace: seq<Event<T>>)
    requires Causal(trace)
    ensures NamesExact(options, trace) <==> InvokedInOrder(trace)
  {
    IdsAreIssued(trace);
    if NamesExact(options, trace) {
      forall id | id in Ids(trace) ensures OccursInOrder(id, Ids(trace)) {
        assert !Named(Run(options, trace), id);
        TerminateNames(options, trace, id);
      }
    }
    if InvokedInOrder(trace) {
      forall id: nat
        ensures Named(Run(options, trace), id) <==> 1 <= id <= Requests(trace) && id !in Ids(trace)
      {
        TerminateNames(options, trace, id);
        if id == 0 {
          assert Embeds(0, Ids(trace), []);
        } else if OccursInOrder(id, Ids(trace)) {
          OccursInvokes(id, Ids(trace));
        }
      }
    }
  }

  /** In particular the names are exact when there is no Invariant 4 report. */
  lemma TerminateNamesMissing<T>(options: Options, trace: seq<Event<T>>)
    requires Causal(trace) && InOrder(Run(options, trace).errors)
    ensures NamesExact(options, trace)
  {
    InOrderInvokes(options, trace);
    forall id | id in Ids(trace) ensures OccursInOrder(id, Ids(trace)) {
      LatestIsLargest(options, trace, id);
    }
    NamesExactly(options, trace);
  }

  lemma NamedRange(s: State, id: nat)
    requires ExcusesNone(s.skipped)
    ensures Named(s, id) <==> s.latest < id < s.i
  {
    MissingMember(s.latest + 1, s.i, s.skipped, id);
  }

  /** `Terminate` called in state `s` reports that callback `id` was never invoked. */
  predicate Named(s: State, id: nat) {
    NeverInvoked(id) in Missing(s.latest + 1, s.i, s.skipped)
  }

  /** After one a name can be wrong: callback 2 runs before callback 1, and
      `Terminate` then names callback 2 as never invoked. */
  lemma OutOfOrderNamesInvoked<T>(options: Options, value: T)
    ensures var trace := [Request(False, true), Request(False, true),
                          Callback(2, False, value), Callback(1, False, value)];
            && Causal(trace)
            && 2 in Ids(trace)
            && NeverInvoked(2) in Report(options, trace)
  {
    var a: Event<T>, b: Event<T> := Request(False, true), Request(False, true);
    var c, d := Callback(2, False, value), Callback(1, False, value);
    var one, two, three, trace := [] + [a], [] + [a] + [b], [] + [a] + [b] + [c], [] + [a] + [b] + [c] + [d];
    Extend(options, [], a);
    Extend(options, one, b);
    Extend(options, two, c);
    Extend(options, three, d);
    assert trace == [a, b, c, d] && trace[..2] == two && trace[..3] == three;
    var s1, s2, s3, s := Run(options, one), Run(options, two), Run(options, three), Run(options, trace);
    assert s1.latest == 0 && s1.i == 2;
    assert s2.latest == 0 && s2.i == 3;
    assert s3.latest == 0 && s3.i == 3;
    assert s.latest == 1 && s.i == 3;
    FieldsMean(options, trace);
    MissingMember(2, 3, s.skipped, 2);
  }

  // ----- Terminate again -----

  lemma NothingToAdd<T>(options: Options, trace: seq<Event<T>>)
    requires Causal(trace)
    ensures var s := Run(options, trace);
            TerminateViolations(options, s) == [] <==>
            s.latest + 1 == s.i && (options.enforceStreamTermination ==> s.Terminated())
  {
    TerminateCountsMissing(options, trace);
  }

  lemma AllAnswered<T>(options: Options, trace: seq<Event<T>>)
    requires Causal(trace)
    ensures OccursInOrder(Requests(trace), Ids(trace)) <==> Run(options, trace).latest + 1 == Run(options, trace).i
  {
    FieldsMean(options, trace);
    LatestBelowNext(options, trace);
    LatestIsLargest(options, trace, Requests(trace));
  }

  lemma StreamEnded<T>(options: Options, trace: seq<Event<T>>)
    ensures Run(options, trace).Terminated() <==> EndedBefore(trace, |trace|)
  {
    FieldsMean(options, trace);
  }

  /** When `Terminate` has nothing to add: every request was answered in order, and the stream ended
      where that is enforced. */
  lemma TerminateSilent<T>(options: Options, trace: seq<Event<T>>)
    requires Causal(trace)
    ensures TerminateViolations(options, Run(options, trace)) == [] <==>
            && OccursInOrder(Requests(trace), Ids(trace))
            && (options.enforceStreamTermination ==> EndedBefore(trace, |trace|))
  {
    NothingToAdd(options, trace);
    AllAnswered(options, trace);
    StreamEnded(options, trace);
  }

  /** A second `Terminate` in lenient mode appends the same reports once more; it leaves the monitor as
      it is if and only if the first had nothing to add. */
  lemma TerminateAgain<T>(options: Options, trace: seq<Event<T>>)
    requires Causal(trace)
    ensures var once := AfterTerminate(options, Run(options, trace));
            && AfterTerminate(options, once).errors ==
               once.errors + TerminateViolations(options, Run(options, trace))
            && (AfterTerminate(options, once) == once <==>
                && OccursInOrder(Requests(trace), Ids(trace))
                && (options.enforceStreamTermination ==> EndedBefore(trace, |trace|)))
  {
    TerminateRepeats(options, Run(options, trace));
    TerminateSilent(options, trace);
  }

  lemma TerminateRepeats(options: Options, s: State)
    ensures var once := AfterTerminate(options, s);
            && AfterTerminate(options, once).errors == once.errors + TerminateViolations(options, s)
            && (AfterTerminate(options, once) == once <==> TerminateViolations(options, s) == [])
  {
    var once := AfterTerminate(options, s);
    assert TerminateViolations(options, once) == TerminateViolations(options, s);
    assert AfterTerminate(options, once) == once ==> |once.errors| == |AfterTerminate(options, once).errors|;
    assert TerminateViolations(options, s) == [] ==> once.errors == AfterTerminate(options, once).errors;
  }

  // ----- Invariant 3 -----

  function Again(errors: seq<Violation>): nat {
    if errors == [] then 0 else Again(Init(errors)) + if Last(errors).InvokedAgain? then 1 else 0
  }

  lemma {:induction false} AgainConcat(a: seq<Violation>, b: seq<Violation>)
    ensures Again(a + b) == Again(a) + Again(b)
  {
    if b == [] {
      assert a + b == a;
    } else {
      assert Init(a + b) == a + Init(b);
      AgainConcat(a, Init(b));
    }
  }

  lemma {:induction false} AgainNone(errors: seq<Violation>)
    requires forall v :: v in errors ==> !v.InvokedAgain?
    ensures Again(errors) == 0
  {
    if errors != [] {
      AgainNone(Init(errors));
    }
  }

  lemma StepAgain<T>(options: Options, s: State, event: Event<T>)
    ensures Again(Step(options, s, event).errors) ==
            Again(s.errors) + if event.Callback? && s.Counter(event.id) > 0 then 1 else 0
  {
    AgainConcat(s.errors, Violations(options, s, event));
    if event.Request? {
      AgainNone(Violations(options, s, event));
    } else {
      var before := DoneViolations(s.Terminated(), event.id, event.done);
      var count := CountViolations(s.Counter(event.id), event.id);
      var order := OrderViolations(s.latest, event.id);
      AgainConcat(before + count, order);
      AgainConcat(before, count);
      AgainNone(before);
      AgainNone(order);
      assert count != [] ==> Init(count) == [];
    }
  }

  function Distinct(ids: seq<nat>): set<nat> {
    set id | id in ids
  }

  lemma DistinctSnoc(ids: seq<nat>, id: nat)
    ensures |Distinct(ids + [id])| == |Distinct(ids)| + if id in ids then 0 else 1
  {
    assert Distinct(ids + [id]) == Distinct(ids) + {id};
  }

  /** One Invariant 3 report for every invocation of a callback but its first. */
  lemma {:induction false} AgainCountsRepeats<T>(options: Options, trace: seq<Event<T>>)
    requires Causal(trace)
    ensures Again(Run(options, trace).errors) + |Distinct(Ids(trace))| == |Ids(trace)|
  {
    if trace == [] {
      return;
    }
    var init, event := Init(trace), Last(trace);
    CausalInit(trace);
    AgainCountsRepeats(options, init);
    StepAgain(options, Run(options, init), event);
    if event.Callback? {
      CountersCount(options, init, event.id);
      TimesZero(Ids(init), event.id);
      DistinctSnoc(Ids(init), event.id);
    }
  }

  // ----- Transparency -----

  /** `flag` is the element that the first truthy position holds, or `False` when there is none. */
  ghost predicate IsFirstTruthy(signals: seq<EndOrError>, flag: EndOrError) {
    if forall k :: 0 <= k < |signals| ==> !signals[k].Truthy() then flag == False
    else exists k :: 0 <= k < |signals| && flag == signals[k] && flag.Truthy()
                     && forall j :: 0 <= j < k ==> !signals[j].Truthy()
  }

  function FirstTruthy(signals: seq<EndOrError>): (flag: EndOrError)
    ensures IsFirstTruthy(signals, flag)
  {
    if signals == [] then False
    else if signals[0].Truthy() then signals[0]
    else
      var rest := signals[1..];
      assert forall k :: 0 <= k < |rest| ==> signals[k + 1] == rest[k];
      FirstTruthy(rest)
  }

  function Aborts<T>(trace: seq<Event<T>>): seq<Abort> {
    if trace == [] then []
    else if Last(trace).Request? then Aborts(Init(trace)) + [Last(trace).abort]
    else Aborts(Init(trace))
  }

  function Dones<T>(trace: seq<Event<T>>): seq<Done> {
    if trace == [] then []
    else if Last(trace).Callback? then Dones(Init(trace)) + [Last(trace).done]
    else Dones(Init(trace))
  }

  lemma FirstTruthySnoc(signals: seq<EndOrError>, flag: EndOrError, signal: EndOrError)
    requires IsFirstTruthy(signals, flag)
    ensures IsFirstTruthy(signals + [signal], flag.Sticky(signal))
  {
    var longer := signals + [signal];
    assert longer[|signals|] == signal;
    assert forall k :: 0 <= k < |signals| ==> longer[k] == signals[k];
  }

  lemma FirstTruthyUnique(signals: seq<EndOrError>, a: EndOrError, b: EndOrError)
    requires IsFirstTruthy(signals, a) && IsFirstTruthy(signals, b)
    ensures a == b
  {
  }

  /** The sticky fields hold the first truthy abort and the first truthy done of the trace. */
  lemma {:induction false} FlagsAreFirst<T>(options: Options, trace: seq<Event<T>>)
    ensures IsFirstTruthy(Aborts(trace), Run(options, trace).aborted)
    ensures IsFirstTruthy(Dones(trace), Run(options, trace).done)
  {
    if trace != [] {
      FlagsAreFirst(options, Init(trace));
      var s := Run(options, Init(trace));
      match Last(trace) {
        case Request(abort, _) => FirstTruthySnoc(Aborts(Init(trace)), s.aborted, abort);
        case Callback(_, done, _) => FirstTruthySnoc(Dones(Init(trace)), s.done, done);
      }
    }
  }

  lemma EmitsFields<T>(s: State, event: Event<T>)
    requires s.i > 0
    ensures Emits(s, event) ==
            match event
            case Request(abort, true) => ToSource(abort, Some(s.i - 1))
            case Request(_, false) => ToSource(s.aborted, None)
            case Callback(id, _, value) => ToSink(id, s.done, value)
  {
  }

  /** What the outside world sees of event `k`: the abort of a request with a callback and every value
      pass unchanged; a done, and the abort of a request without a callback, are the first truthy one
      seen so far. */
  lemma CheckerIsTransparent<T>(options: Options, trace: seq<Event<T>>, k: nat)
    requires k < |trace|
    ensures var seen := trace[..k + 1];
            Emits(Run(options, seen), trace[k]) ==
            match trace[k]
            case Request(abort, true) => ToSource(abort, Some(Requests(seen)))
            case Request(_, false) => ToSource(FirstTruthy(Aborts(seen)), None)
            case Callback(id, _, value) => ToSink(id, FirstTruthy(Dones(seen)), value)
  {
    var seen := trace[..k + 1];
    var s := Run(options, seen);
    assert s.i == Requests(seen) + 1 by {
      FieldsMean(options, seen);
    }
    assert s.aborted == FirstTruthy(Aborts(seen)) && s.done == FirstTruthy(Dones(seen)) by {
      FlagsAreFirst(options, seen);
      FirstTruthyUnique(Aborts(seen), s.aborted, FirstTruthy(Aborts(seen)));
      FirstTruthyUnique(Dones(seen), s.done, FirstTruthy(Dones(seen)));
    }
    EmitsFields(s, trace[k]);
  }

  // ----- The two modes -----

  lemma {:induction false} RunContinues<T>(options: Options, a: seq<Event<T>>, b: seq<Event<T>>)
    ensures Run(options, a + b) == RunFrom(options, Run(options, a), b)
    decreases |b|
  {
    if b == [] {
      assert a + b == a;
    } else {
      var a', rest := a + [b[0]], b[1..];
      assert a + b == a' + rest;
      assert Run(options, a') == Step(options, Run(options, a), b[0]) by {
        Extend(options, a, b[0]);
      }
      RunContinues(options, a', rest);
    }
  }

  /** The first entry of a list of reports. */
  function FirstOf(errors: seq<Violation>): Option<Violation> {
    if errors == [] then None else Some(errors[0])
  }

  lemma StepFirst<T>(options: Options, s: State, event: Event<T>)
    ensures FirstOf(Step(options, s, event).errors) ==
            if s.errors != [] then FirstOf(s.errors) else FirstOf(Violations(options, s, event))
  {
  }

  lemma {:induction false} FirstFrom<T>(options: Options, s: State, trace: seq<Event<T>>)
    ensures FirstOf(RunFrom(options, s, trace).errors) ==
            if s.errors != [] then FirstOf(s.errors) else FirstReport(options, s, trace)
    decreases |trace|
  {
    if trace != [] {
      StepFirst(options, s, trace[0]);
      FirstFrom(options, Step(options, s, trace[0]), trace[1..]);
    }
  }

  /** The first report that a trace causes is the first entry of the list that lenient mode collects. */
  lemma FirstReportIsFirstError<T>(options: Options, trace: seq<Event<T>>)
    ensures FirstReport(options, INITIAL, trace) == FirstOf(Run(options, trace).errors)
    ensures RunFrom(options, INITIAL, trace) == Run(options, trace)
  {
    assert [] + trace == trace;
    FirstFrom(options, INITIAL, trace);
    RunContinues(options, [], trace);
  }

  /** Eager mode throws `v` at event `k` exactly when the lenient list first becomes non-empty at
      event `k` and `v` is its first entry; up to there both modes are in the same state. */
  lemma EagerThrowsFirstReport<T>(
      options: Options, trace: seq<Event<T>>, k: nat, v: Violation, before: State, after: State,
      r: Result<()>, r': Result<()>)
    requires k < |trace| && options.notifyEagerly
    requires EndsAs(options, INITIAL, trace[..k], r, before)
    requires EndsAs(options, INITIAL, trace[..k + 1], r', after)
    ensures r == Ok(()) && r' == Thrown(v) <==>
            && Run(options, trace[..k]).errors == []
            && Run(options, trace[..k + 1]).errors != []
            && Run(options, trace[..k + 1]).errors[0] == v
    ensures r == Ok(()) ==> before == Run(options, trace[..k])
  {
    FirstReportIsFirstError(options, trace[..k]);
    FirstReportIsFirstError(options, trace[..k + 1]);
  }

  lemma OneEagerEvent<T>(options: Options, s: State, event: Event<T>, v: Violation)
    requires FirstReport(options, s, [event]) == Some(v)
    ensures EagerEnd(options, s, [event]) == Abandoned(s, event, v)
  {
  }

  lemma EagerLeaves<T>(
      options: Options, s: State, before: seq<Event<T>>, event: Event<T>, rest: seq<Event<T>>, v: Violation)
    requires FirstReport(options, s, before) == None
    requires FirstReport(options, RunFrom(options, s, before), [event]) == Some(v)
    ensures FirstReport(options, s, before + [event] + rest) == Some(v)
    ensures EagerEnd(options, s, before + [event] + rest) == Abandoned(RunFrom(options, s, before), event, v)
  {
    RunFromConcat(options, s, before + [event], rest);
    RunFromConcat(options, s, before, [event]);
    OneEagerEvent(options, RunFrom(options, s, before), event, v);
  }

  /** The exception leaves the state that lenient mode has before the event, except that the callback's
      counter has gone up by one unless it was thrown for Invariant 5; what would have come later does
      not matter. */
  lemma EagerThrowLeaves<T>(
      options: Options, before: seq<Event<T>>, event: Event<T>, rest: seq<Event<T>>, r: Result<()>, after: State)
    requires options.notifyEagerly
    requires Run(options, before).errors == [] && Run(options, before + [event]).errors != []
    requires EndsAs(options, INITIAL, before + [event] + rest, r, after)
    ensures var s := Run(options, before);
            && r == Thrown(Run(options, before + [event]).errors[0])
            && after == s.(counters := after.counters)
            && forall id :: after.Counter(id) == s.Counter(id) +
                 if event.Callback? && event.id == id && !r.error.ValueAfterTermination? then 1 else 0
  {
    var s := Run(options, before);
    Extend(options, before, event);
    StepFirst(options, s, event);
    FirstReportIsFirstError(options, before);
    EagerLeaves(options, INITIAL, before, event, rest, Run(options, before + [event]).errors[0]);
  }
}
