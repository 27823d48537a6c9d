/**
 The trampoline as a step machine with an explicit call stack: a looper function that calls `next`
 any number of times, synchronously or later from the event loop, and the driver loop inside `next`.
 The theorems hold for every schedule, finite or cut off anywhere.
 */
module LooperMachine {

  /** The two fields of a Looper. `returned` stands for `looperFunctionReturned`. */
  datatype Flags = Flags(nextCalled: bool, returned: bool)

  const FRESH := Flags(false, true)

  /** Entering `next`: it always leaves its mark, and becomes the driver if there is none. */
  function EnterNext(f: Flags): (Flags, bool) {
    if f.returned then (Flags(true, false), true) else (f.(nextCalled := true), false)
  }

  /** The loop test of the driver: run the looper function once more, or leave. */
  function TestDriver(f: Flags): (Flags, bool) {
    if f.nextCalled then (f.(nextCalled := false), true) else (f.(returned := true), false)
  }

  /** An activation on the call stack. The first body is the one that `Start` calls itself. */
  datatype Frame = FirstBody | Driver | DrivenBody

  datatype Stack = Bottom | Push(top: Frame, below: Stack)

  /** What an observer of the looper function and of `next` sees. */
  datatype Mark = NextCalled | BodyStarted

  datatype State = State(started: bool, flags: Flags, stack: Stack, log: seq<Mark>)

  const INITIAL := State(false, FRESH, Bottom, [])

  /** `CallNext` is a call of `next` by the running body or, when the stack is empty, by the event loop.
      `Advance` lets the top activation take its own next step. */
  datatype Action = Start | CallNext | Advance

  predicate Enabled(s: State, action: Action) {
    match action
    case Start => !s.started
    case CallNext => s.started && (s.stack.Bottom? || !s.stack.top.Driver?)
    case Advance => s.stack.Push?
  }

  function Step(s: State, action: Action): State
    requires Enabled(s, action)
  {
    match action
    case Start => s.(started := true, stack := Push(FirstBody, s.stack), log := s.log + [BodyStarted])
    case CallNext =>
      var (flags, drives) := EnterNext(s.flags);
      s.(flags := flags, log := s.log + [NextCalled], stack := if drives then Push(Driver, s.stack) else s.stack)
    case Advance =>
      if !s.stack.top.Driver? then s.(stack := s.stack.below) else
        var (flags, again) := TestDriver(s.flags);
        if again then s.(flags := flags, log := s.log + [BodyStarted], stack := Push(DrivenBody, s.stack))
        else s.(flags := flags, stack := s.stack.below)
  }

  predicate Allowed(actions: seq<Action>)
    decreases |actions|, 0
  {
    actions == [] ||
    (Allowed(actions[..|actions| - 1]) && Enabled(Exec(actions[..|actions| - 1]), actions[|actions| - 1]))
  }

  function Exec(actions: seq<Action>): State
    requires Allowed(actions)
    decreases |actions|, 1
  {
    if actions == [] then INITIAL else Step(Exec(actions[..|actions| - 1]), actions[|actions| - 1])
  }

  lemma ExecSnoc(actions: seq<Action>, action: Action)
    requires Allowed(actions) && Enabled(Exec(actions), action)
    ensures Allowed(actions + [action]) && Exec(actions + [action]) == Step(Exec(actions), action)
  {
    var all := actions + [action];
    assert all[..|all| - 1] == actions && all[|all| - 1] == action;
  }

  // ----- Counting -----

  function Drivers(stack: Stack): nat {
    if stack.Bottom? then 0 else Drivers(stack.below) + if stack.top.Driver? then 1 else 0
  }

  function Bodies(stack: Stack): nat {
    if stack.Bottom? then 0 else Bodies(stack.below) + if stack.top.Driver? then 0 else 1
  }

  function Starts(log: seq<Mark>): nat {
    if log == [] then 0 else Starts(log[..|log| - 1]) + if log[|log| - 1].BodyStarted? then 1 else 0
  }

  function Calls(log: seq<Mark>): nat {
    if log == [] then 0 else Calls(log[..|log| - 1]) + if log[|log| - 1].NextCalled? then 1 else 0
  }

  predicate EndsWithCall(log: seq<Mark>) {
    log != [] && log[|log| - 1].NextCalled?
  }

  /** The calls of `next` that follow another one with no body start between them. */
  function RepeatedCalls(log: seq<Mark>): nat {
    if log == [] then 0 else
      RepeatedCalls(log[..|log| - 1])
      + if EndsWithCall(log) && EndsWithCall(log[..|log| - 1]) then 1 else 0
  }

  lemma CountSnoc(log: seq<Mark>, mark: Mark)
    ensures Starts(log + [mark]) == Starts(log) + if mark.BodyStarted? then 1 else 0
    ensures Calls(log + [mark]) == Calls(log) + if mark.NextCalled? then 1 else 0
    ensures RepeatedCalls(log + [mark]) ==
            RepeatedCalls(log) + if mark.NextCalled? && EndsWithCall(log) then 1 else 0
  {
    var all := log + [mark];
    assert all[..|all| - 1] == log && all[|all| - 1] == mark;
  }

  // ----- The invariant -----

  /** Driven bodies sit on a driver, and the first body at the bottom. */
  ghost predicate Shaped(stack: Stack) {
    stack.Push? ==>
      && Shaped(stack.below)
      && match stack.top
         case FirstBody => stack.below.Bottom?
         case Driver => stack.below.Bottom? || !stack.below.top.Driver?
         case DrivenBody => stack.below.Push? && stack.below.top.Driver?
  }

  /** Some body start comes after position `p` of the log. */
  ghost predicate StartedAfter(log: seq<Mark>, p: int) {
    exists q :: p < q < |log| && 0 <= q && log[q].BodyStarted?
  }

  ghost predicate StackInv(s: State) {
    && Shaped(s.stack)
    && Drivers(s.stack) == (if s.flags.returned then 0 else 1)
    && (s.flags.nextCalled ==> !s.flags.returned)
    && (!s.started ==> s == INITIAL)
  }

  ghost predicate CountInv(s: State) {
    && (s.flags.nextCalled <==> EndsWithCall(s.log))
    && (s.started ==>
          Starts(s.log) + (if s.flags.nextCalled then 1 else 0) + RepeatedCalls(s.log) == 1 + Calls(s.log))
  }

  ghost predicate WakeInv(s: State) {
    forall p :: 0 <= p < |s.log| && s.log[p].NextCalled? ==> s.flags.nextCalled || StartedAfter(s.log, p)
  }

  ghost predicate Inv(s: State) {
    StackInv(s) && CountInv(s) && WakeInv(s)
  }

  lemma StartedAfterGrows(log: seq<Mark>, mark: Mark)
    ensures forall p :: StartedAfter(log, p) ==> StartedAfter(log + [mark], p)
    ensures mark.BodyStarted? ==> forall p :: 0 <= p < |log| ==> StartedAfter(log + [mark], p)
  {
    var all := log + [mark];
    forall p | StartedAfter(log, p) ensures StartedAfter(all, p) {
      var q :| p < q < |log| && 0 <= q && log[q].BodyStarted?;
      assert all[q].BodyStarted?;
    }
    if mark.BodyStarted? {
      assert all[|log|].BodyStarted?;
    }
  }

  lemma StackInvStep(s: State, action: Action)
    requires StackInv(s) && Enabled(s, action)
    ensures StackInv(Step(s, action))
  {
  }

  lemma CountInvStep(s: State, action: Action)
    requires StackInv(s) && CountInv(s) && Enabled(s, action)
    ensures CountInv(Step(s, action))
  {
    CountSnoc(s.log, NextCalled);
    CountSnoc(s.log, BodyStarted);
  }

  lemma WakeInvStep(s: State, action: Action)
    requires WakeInv(s) && Enabled(s, action)
    ensures WakeInv(Step(s, action))
  {
    StartedAfterGrows(s.log, NextCalled);
    StartedAfterGrows(s.log, BodyStarted);
  }

  lemma {:induction false} InvExec(actions: seq<Action>)
    requires Allowed(actions)
    ensures Inv(Exec(actions))
  {
    if actions != [] {
      InvExec(actions[..|actions| - 1]);
      var s, action := Exec(actions[..|actions| - 1]), actions[|actions| - 1];
      StackInvStep(s, action);
      CountInvStep(s, action);
      WakeInvStep(s, action);
    }
  }

  lemma {:induction false} BodiesBounded(stack: Stack)
    requires Shaped(stack)
    ensures Bodies(stack) <= Drivers(stack) + 1
    ensures stack.Push? && stack.top.Driver? ==> Bodies(stack) <= Drivers(stack)
  {
    if stack.Push? {
      BodiesBounded(stack.below);
    }
  }

  // ----- Theorems -----

  /** However often and whenever `next` is called: the flag is false exactly while a driver loop is on
      the stack, there is never more than one driver, and never more than two active bodies. */
  lemma NestingBounded(actions: seq<Action>)
    requires Allowed(actions)
    ensures var s := Exec(actions);
            && (s.flags.returned <==> Drivers(s.stack) == 0)
            && Drivers(s.stack) <= 1
            && Bodies(s.stack) <= 2
  {
    InvExec(actions);
    BodiesBounded(Exec(actions).stack);
  }

  /** Two is the right bound: a synchronous `next` in the first body is enough. */
  lemma NestingReached()
    ensures Allowed([Start, CallNext, Advance]) && Bodies(Exec([Start, CallNext, Advance]).stack) == 2
  {
    ExecSnoc([], Start);
    assert [] + [Start] == [Start];
    ExecSnoc([Start], CallNext);
    assert [Start] + [CallNext] == [Start, CallNext];
    ExecSnoc([Start, CallNext], Advance);
    assert [Start, CallNext] + [Advance] == [Start, CallNext, Advance];
    var s1 := Step(INITIAL, Start);
    var s2 := Step(s1, CallNext);
    assert Step(s2, Advance).stack == Push(DrivenBody, Push(Driver, Push(FirstBody, Bottom)));
  }

  /** No wake-up is lost: when the stack is empty again, every call of `next` has been followed by a
      body start, and only repeated calls have shared one. */
  lemma NoWakeUpLost(actions: seq<Action>)
    requires Allowed(actions)
    ensures var s := Exec(actions);
            s.started && s.stack.Bottom? ==>
              && s.flags == FRESH
              && (forall p :: 0 <= p < |s.log| && s.log[p].NextCalled? ==> StartedAfter(s.log, p))
              && Starts(s.log) == 1 + Calls(s.log) - RepeatedCalls(s.log)
  {
    InvExec(actions);
  }

  /** At no moment have there been more calls of `next` than body runs to make them. */
  ghost predicate CallsCovered(log: seq<Mark>) {
    forall k :: 0 <= k <= |log| ==> Calls(log[..k]) <= Starts(log[..k])
  }

  lemma CoveredSnoc(log: seq<Mark>, mark: Mark)
    ensures CallsCovered(log + [mark]) <==>
            CallsCovered(log) && Calls(log + [mark]) <= Starts(log + [mark])
  {
    var all := log + [mark];
    assert all[..|all|] == all;
    assert forall k :: 0 <= k <= |log| ==> log[..k] == all[..k];
  }

  lemma RepeatSnoc(t: State, log: seq<Mark>, mark: Mark)
    requires CountInv(t) && t.started && t.log == log + [mark]
    ensures RepeatedCalls(t.log) == 0 <==> RepeatedCalls(log) == 0 && Calls(t.log) <= Starts(t.log)
  {
    CountSnoc(log, mark);
  }

  lemma LogStep(s: State, action: Action)
    requires Enabled(s, action) && (!s.started ==> s == INITIAL)
    ensures var t := Step(s, action);
            t.log == s.log || (t.started && (t.log == s.log + [NextCalled] || t.log == s.log + [BodyStarted]))
  {
  }

  /** No call of `next` is repeated if and only if calls never outnumber the body runs. */
  lemma {:induction false} NoRepeats(actions: seq<Action>)
    requires Allowed(actions)
    ensures RepeatedCalls(Exec(actions).log) == 0 <==> CallsCovered(Exec(actions).log)
  {
    if actions == [] {
      return;
    }
    var init, action := actions[..|actions| - 1], actions[|actions| - 1];
    var s, t := Exec(init), Exec(actions);
    NoRepeats(init);
    InvExec(init);
    InvExec(actions);
    LogStep(s, action);
    if t.log != s.log {
      var mark := if t.log == s.log + [NextCalled] then NextCalled else BodyStarted;
      CoveredSnoc(s.log, mark);
      RepeatSnoc(t, s.log, mark);
    }
  }

  /** When each body run causes at most one call of `next`, so that calls never outnumber the runs,
      there is one body start per call and one for `Start`. */
  lemma OneStartPerCall(actions: seq<Action>)
    requires Allowed(actions) && CallsCovered(Exec(actions).log)
    ensures var s := Exec(actions);
            && RepeatedCalls(s.log) == 0
            && (s.started && s.stack.Bottom? ==> Starts(s.log) == 1 + Calls(s.log))
  {
    NoWakeUpLost(actions);
    NoRepeats(actions);
  }
}
