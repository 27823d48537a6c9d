/**
 The protocol monitor as a state machine over whole traces: what one request or one callback
 does to the monitor, which violations it reports, and what `Terminate` adds at the end.
 The class in ProtocolChecker.dfy is proved against these functions, and the theorems are about them.
 */
module CheckerSpec {
  import opened EndOrErrors

  datatype Options = Options(
    forbidExtraRequests: bool,
    enforceStreamTermination: bool,
    notifyEagerly: bool)

  /** One constructor per message the monitor can produce. */
  datatype Violation =
    | ValueRequestedAfterTermination                     // Invariant 1
    | NeverInvoked(id: nat)                              // Invariant 2
    | InvokedAgain(id: nat, times: nat)                  // Invariant 3
    | InvokedAfter(id: nat, latest: nat)                 // Invariant 4
    | InvokedBefore(id: nat, expected: nat)              // Invariant 4
    | ValueAfterTermination(id: nat)                     // Invariant 5
    | RequestAfterAbort                                  // Invariant 6
    | RequestAfterDone                                   // Invariant 6
    | NeverTerminated                                    // Invariant 7

  /** What reaches the monitor: a request from the sink, or the source invoking callback `id`. */
  datatype Event<T> =
    | Request(abort: Abort, hasCallback: bool)
    | Callback(id: nat, done: Done, value: T)

  /** The call a handler makes last, towards the source or towards the sink. */
  datatype Outgoing<T> =
    | ToSource(abort: Abort, callback: Option<nat>)
    | ToSink(id: nat, done: Done, value: T)

  datatype State = State(
    i: nat,
    latest: nat,
    skipped: map<nat, bool>,
    aborted: Abort,
    done: Done,
    counters: map<nat, nat>,
    errors: seq<Violation>)
  {
    predicate Terminated() {
      aborted.Truthy() || done.Truthy()
    }

    function Counter(id: nat): nat {
      if id in counters then counters[id] else 0
    }
  }

  const INITIAL: State := State(1, 0, map[], False, False, map[], [])

  function RequestViolations(options: Options, s: State, abort: Abort): seq<Violation> {
    if !s.Terminated() then [] else
      (if abort.Truthy() then [] else [ValueRequestedAfterTermination])
      + (if options.forbidExtraRequests && s.aborted.Truthy() then [RequestAfterAbort] else [])
      + (if options.forbidExtraRequests && s.done.Truthy() then [RequestAfterDone] else [])
  }

  function DoneViolations(terminated: bool, id: nat, done: Done): seq<Violation> {
    if !done.Truthy() && terminated then [ValueAfterTermination(id)] else []
  }

  function CountViolations(earlier: nat, id: nat): seq<Violation> {
    if earlier > 0 then [InvokedAgain(id, earlier + 1)] else []
  }

  function OrderViolations(latest: nat, id: nat): seq<Violation> {
    if id < latest then [InvokedAfter(id, latest)]
    else if id > latest + 1 then [InvokedBefore(id, latest + 1)]
    else []
  }

  function CallbackViolations(s: State, id: nat, done: Done): seq<Violation> {
    DoneViolations(s.Terminated(), id, done)
    + CountViolations(s.Counter(id), id)
    + OrderViolations(s.latest, id)
  }

  function Violations<T>(options: Options, s: State, event: Event<T>): seq<Violation> {
    match event
    case Request(abort, _) => RequestViolations(options, s, abort)
    case Callback(id, done, _) => CallbackViolations(s, id, done)
  }

  /** The fields after an event, reports aside. */
  function Update<T>(s: State, event: Event<T>): State {
    match event
    case Request(abort, hasCallback) =>
      var t := s.(aborted := s.aborted.Sticky(abort), i := s.i + 1);
      if hasCallback then t.(counters := s.counters[s.i := 0]) else t.(skipped := s.skipped[s.i := true])
    case Callback(id, done, _) =>
      s.(counters := s.counters[id := s.Counter(id) + 1],
         latest := if OrderViolations(s.latest, id) == [] then id else s.latest,
         done := s.done.Sticky(done))
  }

  /** One event in the collecting (lenient) mode. */
  function Step<T>(options: Options, s: State, event: Event<T>): State {
    Update(s, event).(errors := s.errors + Violations(options, s, event))
  }

  /** The call the handler of `event` makes last; `s` is the state after the handler's updates. */
  function Emits<T>(s: State, event: Event<T>): Outgoing<T> {
    match event
    case Request(abort, true) => ToSource(abort, Some(if s.i > 0 then s.i - 1 else 0))
    case Request(_, false) => ToSource(s.aborted, None)
    case Callback(id, _, value) => ToSink(id, s.done, value)
  }

  /** One round of the loop of `Terminate`. */
  function MissingAt(k: nat, skipped: map<nat, bool>): seq<Violation> {
    if k !in skipped || skipped[k] then [NeverInvoked(k)] else []
  }

  /** The loop of `Terminate`, from callback `k` on. */
  function Missing(k: nat, i: nat, skipped: map<nat, bool>): seq<Violation>
    decreases i - k
  {
    if k >= i then [] else MissingAt(k, skipped) + Missing(k + 1, i, skipped)
  }

  function TerminateViolations(options: Options, s: State): seq<Violation> {
    Missing(s.latest + 1, s.i, s.skipped)
    + (if options.enforceStreamTermination && !s.Terminated() then [NeverTerminated] else [])
  }

  /** What `Terminate` in lenient mode leaves behind. */
  function AfterTerminate(options: Options, s: State): State {
    s.(errors := s.errors + TerminateViolations(options, s))
  }

  function Init<X>(s: seq<X>): seq<X>
    requires s != []
  {
    s[..|s| - 1]
  }

  function Last<X>(s: seq<X>): X
    requires s != []
  {
    s[|s| - 1]
  }

  /** The whole trace in lenient mode. */
  function Run<T>(options: Options, trace: seq<Event<T>>): State {
    if trace == [] then INITIAL else Step(options, Run(options, Init(trace)), Last(trace))
  }

  /** The list that one `Terminate` at the end of the trace returns. */
  function Report<T>(options: Options, trace: seq<Event<T>>): seq<Violation> {
    var s := Run(options, trace);
    s.errors + TerminateViolations(options, s)
  }

  /** How many requests a trace makes. */
  function Requests<T>(trace: seq<Event<T>>): nat {
    if trace == [] then 0 else Requests(Init(trace)) + if Last(trace).Request? then 1 else 0
  }

  /** The ids of the callbacks a trace invokes, in order. */
  function Ids<T>(trace: seq<Event<T>>): seq<nat> {
    if trace == [] then []
    else if Last(trace).Callback? then Ids(Init(trace)) + [Last(trace).id]
    else Ids(Init(trace))
  }

  /** A callback exists only once its request has been made; the first request has id 1. */
  ghost predicate Causal<T>(trace: seq<Event<T>>) {
    forall k :: 0 <= k < |trace| && trace[k].Callback? ==> 1 <= trace[k].id <= Requests(trace[..k])
  }

  /** A truthy abort or a truthy done. */
  predicate EndsStream<T>(event: Event<T>) {
    match event
    case Request(abort, _) => abort.Truthy()
    case Callback(_, done, _) => done.Truthy()
  }

  /** Some event before position `k` ended the stream. */
  ghost predicate EndedBefore<T>(trace: seq<Event<T>>, k: int)
    requires k <= |trace|
  {
    exists j :: 0 <= j < k && EndsStream(trace[j])
  }
}
