/** Reduce on top of Drain, and Collect as the Reduce that appends. */
module Reducing {
  import opened EndOrErrors
  import opened CheckerSpec
  import opened Sources
  import opened PipelineMachine
  import PipelineInvariants
  import opened PipelineTheorems

  /** The accumulator, and the invocations of the final callback so far. */
  datatype ReduceState<A> = ReduceState(accumulator: A, results: seq<(Done, A)>)

  function OnSinkCall<A, T>(reducer: (A, T) -> A, s: ReduceState<A>, call: SinkCall<T>): ReduceState<A> {
    match call
    case OnValue(value) => s.(accumulator := reducer(s.accumulator, value))
    case OnDone(done) => s.(results := s.results + [(done, s.accumulator)])
  }

  class Reduce<A, T> {
    const reducer: (A, T) -> A
    var accumulator: A
    var results: seq<(Done, A)>  // stands for `callback`: its invocations, in order
    var drainCreated: bool

    function Now(): ReduceState<A>
      reads this
    {
      ReduceState(accumulator, results)
    }

    constructor (reducer: (A, T) -> A, accumulator: A)
      ensures this.reducer == reducer && Now() == ReduceState(accumulator, []) && !drainCreated
    {
      this.reducer, this.accumulator := reducer, accumulator;
      results, drainCreated := [], false;
    }

    method OnValue(value: T)
      modifies this`accumulator
      ensures Now() == OnSinkCall(reducer, old(Now()), SinkCall.OnValue(value))
    {
      accumulator := reducer(accumulator, value);
    }

    method OnDone(done: Done)
      modifies this`results
      ensures Now() == OnSinkCall(reducer, old(Now()), SinkCall<T>.OnDone(done))
    {
      results := results + [(done, accumulator)];
    }

    /** The sink can be used once. */
    method Sink() returns (drain: Drain<A, T>)
      requires !drainCreated
      modifies this`drainCreated
      ensures drainCreated && fresh(drain) && drain.reduce == this && Now() == old(Now())
    {
      drainCreated := true;
      drain := new Drain(this);
    }
  }

  /** Drain with the two functions that Reduce gives it. */
  class Drain<A, T> {
    const reduce: Reduce<A, T>

    constructor (reduce: Reduce<A, T>)
      ensures this.reduce == reduce
    {
      this.reduce := reduce;
    }

    /** The callback of a request up to its call of `next`, which it makes unless the stream is over. */
    method HandleAnswer(e: Done, value: T) returns (phase: Phase<T>)
      modifies reduce`accumulator, reduce`results
      ensures reduce.Now() == OnSinkCall(reduce.reducer, old(reduce.Now()), SinkCallOf(e, value))
      ensures phase == AfterSinkCall(e)
    {
      if e.Truthy() {
        reduce.OnDone(e);
        return Leaving;
      }
      reduce.OnValue(value);
      return CallingNext;
    }
  }

  /** Reduce over a series of sink calls. */
  function ReduceRun<A, T>(reducer: (A, T) -> A, initial: A, calls: seq<SinkCall<T>>): ReduceState<A> {
    if calls == [] then ReduceState(initial, [])
    else OnSinkCall(reducer, ReduceRun(reducer, initial, Init(calls)), Last(calls))
  }

  lemma ReduceRunSnoc<A, T>(reducer: (A, T) -> A, initial: A, calls: seq<SinkCall<T>>, call: SinkCall<T>)
    ensures ReduceRun(reducer, initial, calls + [call]) ==
            OnSinkCall(reducer, ReduceRun(reducer, initial, calls), call)
  {
    assert Init(calls + [call]) == calls;
  }

  /** The left fold, first value first. */
  function Foldl<A, T>(reducer: (A, T) -> A, initial: A, values: seq<T>): A
    decreases |values|
  {
    if values == [] then initial else Foldl(reducer, reducer(initial, values[0]), values[1..])
  }

  lemma {:induction false} FoldlSnoc<A, T>(reducer: (A, T) -> A, initial: A, values: seq<T>, value: T)
    ensures Foldl(reducer, initial, values + [value]) == reducer(Foldl(reducer, initial, values), value)
    decreases |values|
  {
    if values == [] {
      assert ([] + [value])[1..] == [];
    } else {
      assert (values + [value])[0] == values[0] && (values + [value])[1..] == values[1..] + [value];
      FoldlSnoc(reducer, reducer(initial, values[0]), values[1..], value);
    }
  }

  /** The values among the sink calls. */
  function ValuesOf<T>(calls: seq<SinkCall<T>>): seq<T> {
    if calls == [] then []
    else if Last(calls).OnValue? then ValuesOf(Init(calls)) + [Last(calls).value]
    else ValuesOf(Init(calls))
  }

  lemma {:induction false} ReduceRunFolds<A, T>(reducer: (A, T) -> A, initial: A, calls: seq<SinkCall<T>>)
    requires forall k :: 0 <= k < |calls| - 1 ==> calls[k].OnValue?
    ensures var folded := Foldl(reducer, initial, ValuesOf(calls));
            ReduceRun(reducer, initial, calls) ==
            ReduceState(folded, if calls != [] && Last(calls).OnDone? then [(Last(calls).done, folded)] else [])
  {
    if calls != [] {
      var init := Init(calls);
      assert forall k :: 0 <= k < |init| ==> init[k] == calls[k];
      ReduceRunFolds(reducer, initial, init);
      if Last(calls).OnValue? {
        FoldlSnoc(reducer, initial, ValuesOf(init), Last(calls).value);
      }
    }
  }

  /** In every reachable state, for an arbitrary source: the accumulator is the left fold of the values
      received, and the final callback has run once if the stream is finished, and not at all before;
      it got the done of the stream, an error included, together with the fold. */
  lemma ReduceFolds<A, T>(
      options: Options, reducer: (A, T) -> A, initial: A, actions: seq<PipelineMachine.Action<T>>)
    requires PipelineMachine.Allowed(options, actions)
    ensures var s := Exec(options, actions);
            var folded := Foldl(reducer, initial, ValuesOf(s.sinkCalls));
            ReduceRun(reducer, initial, s.sinkCalls) ==
            ReduceState(folded, if Finished(s) then [(s.checker.done, folded)] else [])
  {
    PipelineInvariants.InvExec(options, actions);
    ReduceRunFolds(reducer, initial, Exec(options, actions).sinkCalls);
  }

  lemma {:induction false} ValuesOfPrefix<T>(values: seq<T>, end: Done, k: nat)
    requires k <= |values|
    ensures ValuesOf(StreamCalls(values, end)[..k]) == values[..k]
  {
    if k > 0 {
      var calls := StreamCalls(values, end)[..k];
      assert Init(calls) == StreamCalls(values, end)[..k - 1];
      ValuesOfPrefix(values, end, k - 1);
    }
  }

  /** For a source that delivers `values` and then `end`, under any schedule: the callback has run
      exactly once when everything is done, with `end` and the fold of `values`. */
  lemma ReduceOfStream<A, T>(
      options: Options, reducer: (A, T) -> A, initial: A, values: seq<T>, end: Done,
      actions: seq<PipelineMachine.Action<T>>)
    requires PipelineMachine.Allowed(options, actions) && end.Truthy()
    requires Serves(values, end, Replies(Exec(options, actions).trace))
    requires AtRest(Exec(options, actions))
    ensures ReduceRun(reducer, initial, Exec(options, actions).sinkCalls).results ==
            [(end, Foldl(reducer, initial, values))]
  {
    EveryScheduleDelivers(options, values, end, actions);
    var calls := StreamCalls(values, end);
    assert Init(calls) == calls[..|values|] && Last(calls) == SinkCall.OnDone(end);
    assert values[..|values|] == values;
    ValuesOfPrefix(values, end, |values|);
    ReduceRunFolds(reducer, initial, calls);
  }

  /** The reducer of `MakeCollect`. */
  function PushBack<T>(vector: seq<T>, value: T): seq<T> {
    vector + [value]
  }

  lemma {:induction false} FoldPushBack<T>(initial: seq<T>, values: seq<T>)
    ensures Foldl(PushBack, initial, values) == initial + values
    decreases |values|
  {
    if values != [] {
      FoldPushBack(initial + [values[0]], values[1..]);
    }
  }

  /** `MakeCollect` hands the whole stream to its callback. */
  lemma CollectOfStream<T>(options: Options, values: seq<T>, end: Done, actions: seq<PipelineMachine.Action<T>>)
    requires PipelineMachine.Allowed(options, actions) && end.Truthy()
    requires Serves(values, end, Replies(Exec(options, actions).trace))
    requires AtRest(Exec(options, actions))
    ensures ReduceRun(PushBack, [], Exec(options, actions).sinkCalls).results == [(end, values)]
  {
    ReduceOfStream(options, PushBack, [], values, end, actions);
    FoldPushBack([], values);
    assert [] + values == values;
  }
}
