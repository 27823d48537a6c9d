/**
 A source, the monitor and a Drain driven by its Looper, composed into one step machine with an
 explicit call stack. The source is arbitrary: it may answer a request inside the call that makes it
 or later from the event loop, with any done and any value, but answers no request twice.
 */
module PipelineMachine {
  import opened EndOrErrors
  import opened CheckerSpec
  import opened Sources
  import Trampoline = LooperMachine

  /** Where an invocation of the sink's callback stands: the sink has yet to look at the answer, it has
      yet to call `next`, or it is about to return. */
  datatype Phase<T> = Delivering(done: Done, value: T) | CallingNext | Leaving

  /** An activation: the looper function (called by `Start` or by a driver, before or after it has made
      its request), the loop inside `next`, the source asked for request `id`, a callback chain. */
  datatype Frame<T> = Body(first: bool, issued: bool) | Driver | Asked(id: nat) | Answer(phase: Phase<T>)

  datatype Stack<T> = Bottom | Push(top: Frame<T>, below: Stack<T>)

  /** A call of one of the two functions that Drain was created with. */
  datatype SinkCall<T> = OnValue(value: T) | OnDone(done: Done)

  datatype Machine<T> = Machine(
    started: bool,
    stack: Stack<T>,
    flags: Trampoline.Flags,
    checker: State,
    outstanding: set<nat>,        // requests the source has been asked and has not answered
    trace: seq<Event<T>>,         // what the monitor has seen
    sinkCalls: seq<SinkCall<T>>)

  function Fresh<T>(): Machine<T> {
    Machine(false, Bottom, Trampoline.FRESH, INITIAL, {}, [], [])
  }

  /** `Reply` is the source invoking the callback of an outstanding request, while it runs itself or
      from the event loop. `Advance` lets the top activation take its next step; a source that has not
      answered, or will answer later, then returns. */
  datatype Action<T> = Start | Advance | Reply(id: nat, done: Done, value: T)

  predicate Enabled<T>(s: Machine<T>, action: Action<T>) {
    match action
    case Start => !s.started
    case Advance => s.stack.Push?
    case Reply(id, _, _) => id in s.outstanding && (s.stack.Bottom? || s.stack.top.Asked?)
  }

  /** The looper function of Drain: a request without abort and with a callback. */
  function Issue<T>(options: Options, s: Machine<T>, first: bool, below: Stack<T>): Machine<T> {
    var event := Request(False, true);
    s.(checker := CheckerSpec.Step(options, s.checker, event),
       trace := s.trace + [event],
       outstanding := s.outstanding + {s.checker.i},
       stack := Push(Asked(s.checker.i), Push(Body(first, true), below)))
  }

  /** The source invokes the monitor's callback, which passes its own `done` on to the sink. */
  function Respond<T>(options: Options, s: Machine<T>, id: nat, done: Done, value: T): Machine<T> {
    var event := Callback(id, done, value);
    var checker := CheckerSpec.Step(options, s.checker, event);
    var outgoing := Emits(checker, event);
    s.(checker := checker,
       trace := s.trace + [event],
       outstanding := s.outstanding - {id},
       stack := Push(Answer(Delivering(outgoing.done, outgoing.value)), s.stack))
  }

  /** What Drain's callback makes of an answer: `onDone` and nothing more, or `onValue`. */
  function SinkCallOf<T>(done: Done, value: T): SinkCall<T> {
    if done.Truthy() then OnDone(done) else OnValue(value)
  }

  function AfterSinkCall<T>(done: Done): Phase<T> {
    if done.Truthy() then Leaving else CallingNext
  }

  function Move<T>(options: Options, s: Machine<T>, action: Action<T>): Machine<T>
    requires Enabled(s, action)
  {
    match action
    case Start => s.(started := true, stack := Push(Body(true, false), s.stack))
    case Reply(id, done, value) => Respond(options, s, id, done, value)
    case Advance =>
      var below := s.stack.below;
      match s.stack.top
      case Body(first, false) => Issue(options, s, first, below)
      case Body(_, true) => s.(stack := below)
      case Asked(_) => s.(stack := below)
      case Driver =>
        var (flags, again) := Trampoline.TestDriver(s.flags);
        s.(flags := flags, stack := if again then Push(Body(false, false), s.stack) else below)
      case Answer(Delivering(done, value)) =>
        s.(sinkCalls := s.sinkCalls + [SinkCallOf(done, value)], stack := Push(Answer(AfterSinkCall(done)), below))
      case Answer(CallingNext) =>
        var (flags, drives) := Trampoline.EnterNext(s.flags);
        var left := Push(Answer(Leaving), below);
        s.(flags := flags, stack := if drives then Push(Driver, left) else left)
      case Answer(Leaving) => s.(stack := below)
  }

  predicate Allowed<T>(options: Options, actions: seq<Action<T>>)
    decreases |actions|, 0
  {
    actions == [] ||
    (Allowed(options, Init(actions)) && Enabled(Exec(options, Init(actions)), Last(actions)))
  }

  function Exec<T>(options: Options, actions: seq<Action<T>>): Machine<T>
    requires Allowed(options, actions)
    decreases |actions|, 1
  {
    if actions == [] then Fresh() else Move(options, Exec(options, Init(actions)), Last(actions))
  }

  // ----- Vocabulary of the theorems -----

  function Drivers<T>(stack: Stack<T>): nat {
    if stack.Bottom? then 0 else Drivers(stack.below) + if stack.top.Driver? then 1 else 0
  }

  function Depth<T>(stack: Stack<T>): nat {
    if stack.Bottom? then 0 else Depth(stack.below) + 1
  }

  /** The stream is over for the sink: it has been told so. */
  predicate Finished<T>(s: Machine<T>) {
    s.sinkCalls != [] && Last(s.sinkCalls).OnDone?
  }

  predicate Issuing<T>(stack: Stack<T>) {
    stack.Push? && stack.top.Body? && !stack.top.issued
  }

  predicate Processing<T>(stack: Stack<T>) {
    stack.Push? && stack.top.Answer? && !stack.top.phase.Leaving?
  }

  function One(b: bool): nat {
    if b then 1 else 0
  }

  /** The places where the right to make the next move can be. */
  function Tokens<T>(s: Machine<T>): nat {
    One(!s.started) + One(Issuing(s.stack)) + |s.outstanding| + One(Processing(s.stack))
    + One(s.flags.nextCalled) + One(Finished(s))
  }

  /** What the source has answered so far, and the calls of the sink that this amounts to. */
  function Replies<T>(trace: seq<Event<T>>): seq<Response<T>> {
    if trace == [] then []
    else if Last(trace).Callback? then Replies(Init(trace)) + [Response(Last(trace).done, Last(trace).value)]
    else Replies(Init(trace))
  }

  function CallsOf<T>(replies: seq<Response<T>>): seq<SinkCall<T>> {
    if replies == [] then []
    else CallsOf(Init(replies)) + [SinkCallOf(Last(replies).done, Last(replies).value)]
  }

  /** Nothing is left to do: no activation, and nothing the source still owes. */
  predicate AtRest<T>(s: Machine<T>) {
    s.started && s.stack.Bottom? && s.outstanding == {}
  }
}
