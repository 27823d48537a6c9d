# Pull streams: the monitor, the trampoline and the pipeline

dk_pull moves values from a *source* to a *sink* by requests: the sink calls the source with an abort
signal and a callback, and the source answers by invoking the callback with a done signal and a value,
at once or later from the event loop. This project models the parts of the library that make this safe
and proves what they guarantee.

- **The monitor** (`CheckerSpec`, `ProtocolCheckers`). `ProtocolChecker` sits between source and sink,
  counts requests and callback invocations and reports violations of seven invariants, by throwing
  (eager) or by collecting (lenient). `CheckerSpec` says what one event does to it; the class
  `ProtocolChecker` is proved to do exactly that in both modes, including what an exception leaves
  behind, and including handlers that re-enter the checker from inside their outgoing call.
  `CheckerTheorems` proves that the lenient verdict is sound and complete for the protocol stated
  without the monitor; `CheckerAccounting` gives the exact meaning of single fields and reports, on bad
  traces too; `CheckerReports` derives the whole list, every entry and its place, from the trace alone.
- **The trampoline** (`LooperMachine`, `Loopers`). `Looper` turns recursion through `next` into a loop.
  `LooperMachine` is a step machine with an explicit call stack, for every schedule of synchronous and
  deferred calls. The class `Looper` keeps the source's own `while` loop that re-enters the looper
  function; its ghost history is a run of the machine, and its effects are compared with those of the
  program in which `next` calls the looper function directly.
- **The sources** (`Sources`). `Values` and `Count`, with the wrap-around of the 64-bit counter.
- **The pipeline** (`PipelineMachine`, `PipelineInvariants`, `PipelineTheorems`, `PipelineTrampoline`,
  `Reducing`, `DrainRuns`). Source, monitor, Drain and Looper as one machine; a schedule is any sequence
  of steps in which the source answers no request twice. Safety holds for an arbitrary source. For a
  source with a finite stream every schedule is shown to be finite and to end in delivery. `Reduce` and
  `MakeCollect` sit on top. `DrainRun` is the same pipeline in the source's own form: the objects
  themselves, with `next`, the looper function, the monitor's handlers and Drain's callback calling and
  re-entering one another, over a `Values` source whose answers come at once or later in any mix. Its
  ghost history is a run of the machine, and the machine's theorems give its contracts.
- **Splitting strings** (`SplitStrings`). `SplitString` and its two round trips.

Three facts of the code that its own names or comments do not suggest, modelled as they are:

- `skipped` only ever holds `true`, so it never excuses a missing callback: a request made without a
  callback is reported as never invoked (`dk_pull/pull_stream/test/protocol_checker_test.cc:77-101`
  expects that).
- `latest` does not move on an out-of-order callback. The verdict stays exact, but a later Invariant 2
  message can name a callback that did run (`CheckerAccounting.OutOfOrderNamesInvoked`);
  `CheckerAccounting.NamesExactly` says exactly when the names are right.
- `Looper::Start` does not clear `looperFunctionReturned`, so a synchronous `next` in the first body
  becomes a driver loop inside it: up to two bodies are active at a time, and no more.

Calls into user code, the event loop and the deferral of answers are nondeterminism of the schedule.
A source's reply with a truthy done carries an arbitrary value; `blank` stands for `T()`.

## Model

| member | source | states |
|---|---|---|
| ProtocolCheckers.ProtocolChecker.HandleRequest | dk_pull/pull_stream/protocol_checker.h:63-94 | a request in both modes: the exact reports in order, the whole new state, the call made to the source; an exception leaves the state untouched |
| ProtocolCheckers.ProtocolChecker.HandleCallback | dk_pull/pull_stream/protocol_checker.h:94-125 | a callback in both modes: the exact reports in order, the whole new state, the call made to the sink; an exception after the Invariant 5 check leaves only the counter incremented |
| ProtocolCheckers.ProtocolChecker.CheckRequest | dk_pull/pull_stream/protocol_checker.h:65-82 | Invariants 1 and 6: what is collected, or which one is thrown first |
| ProtocolCheckers.ProtocolChecker.CheckDone | dk_pull/pull_stream/protocol_checker.h:95-100 | Invariant 5 in both modes |
| ProtocolCheckers.ProtocolChecker.CheckCounter | dk_pull/pull_stream/protocol_checker.h:101-107 | Invariant 3 in both modes; the invocation is counted even when it is thrown for |
| ProtocolCheckers.ProtocolChecker.CheckOrder | dk_pull/pull_stream/protocol_checker.h:108-120 | Invariant 4 in both modes; `latest` moves only in order |
| ProtocolCheckers.ProtocolChecker.CheckCallback | dk_pull/pull_stream/protocol_checker.h:95-120 | the three checks together: reports, counter and `latest` |
| ProtocolCheckers.ProtocolChecker.CheckMissing | dk_pull/pull_stream/protocol_checker.h:131-140 | the loop of `Terminate` makes exactly the Invariant 2 reports, or throws the first of them |
| ProtocolCheckers.ProtocolChecker.Terminate | dk_pull/pull_stream/protocol_checker.h:130-147 | appends the Invariant 2 and 7 reports and returns the whole list, or throws the first new one |
| ProtocolCheckers.ProtocolChecker.NotifyError | dk_pull/pull_stream/protocol_checker.h:159-164 | throws and keeps the list, or appends to it |
| ProtocolCheckers.ProtocolChecker.Activate | dk_pull/pull_stream/protocol_checker.h:63-125 | re-entrancy is harmless: a tree of nested handlers ends in the state, the list and the exception of its preorder flattening run one event at a time, with the state that the exception leaves behind |
| ProtocolCheckers.ProtocolChecker.ActivateAll | dk_pull/pull_stream/protocol_checker.h:63-125 | the same for the calls made back during one outgoing call |
| CheckerTheorems.MonitorExact | dk_pull/pull_stream/protocol_checker.h:63-147 | soundness and completeness: one `Terminate` at the end of a trace returns the empty list if and only if ids 1..n were invoked in order, the end is respected by every later request and callback, and the stream ended if that is enforced |
| CheckerTheorems.CleanExactly | dk_pull/pull_stream/protocol_checker.h:63-125 | the list is empty before `Terminate` if and only if the invoked ids are 1..latest and the end is respected |
| CheckerTheorems.FieldsMean | dk_pull/pull_stream/protocol_checker.h:83-92 | on every trace: `i` counts requests, the sticky flags say whether the stream has ended, `skipped` never holds false, `latest` is an invoked id |
| CheckerTheorems.CountersCount | dk_pull/pull_stream/protocol_checker.h:93-101 | the shared counter of a request counts exactly the invocations of its callback |
| CheckerTheorems.LatestBelowNext | dk_pull/pull_stream/protocol_checker.h:108-120 | `latest < i` always |
| CheckerAccounting.LatestIsLargest | dk_pull/pull_stream/protocol_checker.h:108-120 | `latest` is the largest k such that 1..k occurs in order among the invoked ids, on bad traces too |
| CheckerAccounting.TerminateCountsMissing | dk_pull/pull_stream/protocol_checker.h:130-140 | `Terminate` makes exactly `i - 1 - latest` Invariant 2 reports whatever `skipped` holds |
| CheckerAccounting.TerminateNames | dk_pull/pull_stream/protocol_checker.h:130-140 | on every trace: request id is named if and only if 1..id does not occur in order among the invoked ids |
| CheckerAccounting.NamesExactly | dk_pull/pull_stream/protocol_checker.h:113-120 | the ids named are exactly the requests whose callback was never invoked if and only if every invoked id closes an occurrence of 1..id among the invoked ids |
| CheckerAccounting.TerminateNamesMissing | dk_pull/pull_stream/protocol_checker.h:130-140 | in particular the names are exact when there is no Invariant 4 report |
| CheckerAccounting.TerminateSilent | dk_pull/pull_stream/protocol_checker.h:130-147 | `Terminate` has nothing to add if and only if every request was answered in order and the stream ended where that is enforced |
| CheckerAccounting.TerminateAgain | dk_pull/pull_stream/protocol_checker.h:130-147 | a second `Terminate` in lenient mode appends the same reports again, and leaves the monitor as it is if and only if that same condition holds |
| CheckerAccounting.OutOfOrderNamesInvoked | dk_pull/pull_stream/protocol_checker.h:113-117 | the condition can fail: a concrete trace on which a callback that did run is named |
| CheckerAccounting.AgainCountsRepeats | dk_pull/pull_stream/protocol_checker.h:101-107 | Invariant 3 reports plus distinct invoked ids equal total invocations |
| CheckerAccounting.FlagsAreFirst | dk_pull/pull_stream/protocol_checker.h:83-85 | each sticky signal is the element at the position of the aborts (dones) of the trace that is truthy with no truthy one before it, and false if there is none |
| CheckerAccounting.CheckerIsTransparent | dk_pull/pull_stream/protocol_checker.h:83-124 | what passes through: aborts of requests with a callback and all values unchanged; dones, and aborts without a callback, as the first truthy one so far |
| CheckerAccounting.FirstReportIsFirstError | dk_pull/pull_stream/protocol_checker.h:159-164 | the first event eager mode throws for makes the first entry of the lenient list |
| CheckerAccounting.EagerThrowsFirstReport | dk_pull/pull_stream/protocol_checker.h:159-164 | eager throws v at event k if and only if the lenient list first becomes non-empty at k with v in front; before that the two states are equal |
| CheckerAccounting.EagerThrowLeaves | dk_pull/pull_stream/protocol_checker.h:159-164 | an exception for the first violation is its first report, whatever would have come later, and leaves the state lenient mode has before the event, except that the callback's counter is one higher unless Invariant 5 was broken |
| CheckerReports.RequestExact | dk_pull/pull_stream/protocol_checker.h:65-82 | on every trace a request adds, in this order and nothing else: Invariant 1 if the stream has ended and it carries no abort; under `forbid_extra_requests`, "aborted" if an earlier request aborted and "terminated" if an earlier callback was done |
| CheckerReports.CallbackExact | dk_pull/pull_stream/protocol_checker.h:95-120 | on every trace callback id adds, in this order and nothing else: Invariant 5 for id if the stream has ended and it is not done; Invariant 3 with the number n of its invocations so far if n > 1; Invariant 4 "after m" if id < m or "before m + 1" if id > m + 1, m being the largest number with 1..m invoked in order before |
| CheckerReports.TerminateExact | dk_pull/pull_stream/protocol_checker.h:130-147 | on every trace `Terminate` adds Invariant 2 for m + 1, m + 2, ..., up to the last request, in this order, then Invariant 7 if it is enforced and no event ended the stream |
| CheckerReports.ReportExact | dk_pull/pull_stream/protocol_checker.h:63-147 | the full list of lenient mode on every causal trace is the list so derived from the trace without the monitor |
| CheckerReports.EagerExact | dk_pull/pull_stream/protocol_checker.h:159-164 | eager mode throws the first entry of that list, and nothing if the events add none |
| CheckerReports.PlayableExactly | dk_pull/pull_stream/protocol_checker.h:86-94 | the re-entrant runs of the class cover exactly the traces in which no callback is invoked before the request that carried it |
| CheckerReports.PlayableIsCausal | dk_pull/pull_stream/protocol_checker.h:86-94 | so the theorems about causal traces hold of every run of the class |
| LooperMachine.NestingBounded | dk_pull/looper/looper.cc:32-48 | on every run `looperFunctionReturned` is false exactly while a driver is on the stack, there is at most one driver and there are at most two active bodies |
| LooperMachine.NestingReached | dk_pull/looper/looper.h:44-46 | two active bodies do occur, because `Start` leaves the flag true |
| LooperMachine.NoWakeUpLost | dk_pull/looper/looper.cc:36-46 | with an empty stack the flags are fresh, every `next` call has been followed by a body start, and starts are 1 + calls − repeated calls |
| LooperMachine.NoRepeats | dk_pull/looper/looper.cc:36-46 | no call is repeated if and only if calls never outnumber the body runs at any moment |
| LooperMachine.OneStartPerCall | dk_pull/looper/looper.cc:36-46 | exactly 1 + calls body starts when calls never outnumber the body runs, as when each run causes at most one |
| Loopers.Looper.Start | dk_pull/looper/looper.cc:32 | the first body, whose calls of `next` become driver loops; ends with an empty stack and fresh flags |
| Loopers.Looper.Next | dk_pull/looper/looper.cc:34-48 | with a driver below it only leaves its mark; otherwise it runs the whole chain of bodies, and the call stack is back as it was |
| Loopers.Looper.RunLooperFunction | dk_pull/looper/looper.cc:44 | one body under a driver or under `Start`: its effects and whether it has called `next` |
| Loopers.Looper.RunEvents | dk_pull/looper/test/looper_test.cc:34-53 | deferred calls fired one by one from the event loop |
| Loopers.LooperRefinesNaive | dk_pull/looper/looper.cc:32-48 | when every body but the first calls `next` at most once and in tail position, under any mix of synchronous and deferred calls: same effects in the same order and same runs used up as in direct recursion |
| Loopers.TailCallExactly | dk_pull/looper/looper.cc:36-46 | the condition is exact: a driven body agrees with direct recursion in front of all well-behaved bodies if and only if nothing but deferrals follows a synchronous call of `next` in it |
| Loopers.FirstIsNaive | dk_pull/looper/looper.cc:32-46 | the first body may call `next` as often and wherever it likes |
| Loopers.ChainIsNaive | dk_pull/looper/looper.cc:41-46 | the driver loop equals the direct recursion |
| Loopers.TailPositionMatters | dk_pull/looper/looper.cc:37-40 | an effect after `next` is reordered: a concrete script |
| Sources.Values.Source | dk_pull/pull_stream/sources/values.h:43-60 | the reply and the remaining list of one request |
| Sources.ValuesConserved | dk_pull/pull_stream/sources/values.h:43-60 | over any requests, the values handed out followed by those left are the original list |
| Sources.ValuesAnswer | dk_pull/pull_stream/sources/values.h:49-59 | an abort is answered with itself and consumes nothing; otherwise a value exactly while one is left, then done; an answer that is done carries the default value |
| Sources.ValuesStream | dk_pull/pull_stream/sources/values.h:53-59 | asked without abort it delivers its list in order, then done for ever |
| Sources.Count.Source | dk_pull/pull_stream/sources/count.cc:36-51 | the reply and the counter after one request, modulo 2^64 |
| Sources.CountConserved | dk_pull/pull_stream/sources/count.cc:44-50 | below 2^64 − 1 the counter stays within maximum + 1 and the values handed out are exactly the interval it moved through |
| Sources.CountAnswer | dk_pull/pull_stream/sources/count.cc:40-50 | an abort is answered with itself and moves nothing; otherwise a value exactly while the counter is within maximum; an answer that is done carries 0 |
| Sources.CountStream | dk_pull/pull_stream/sources/count.cc:44-50 | asked without abort it delivers i..maximum, then done |
| Sources.CountWraps | dk_pull/pull_stream/sources/count.cc:44-50 | at 2^64 − 1 the counter wraps around and is never done |
| Sources.CountEndsExactly | dk_pull/pull_stream/sources/count.cc:44-50 | the stream ends if and only if maximum < 2^64 − 1 |
| PipelineInvariants.InvExec | dk_pull/pull_stream/sinks/drain.h:43-60 | the inductive invariant of call stack, token, monitor, sink and trace holds in every reachable state, for an arbitrary source |
| PipelineTheorems.PipelineIsSilent | dk_pull/pull_stream/sinks/drain.h:43-60 | for every source, every schedule and every setting of the options the monitor never has anything to report |
| PipelineTheorems.PipelineNeverThrows | dk_pull/pull_stream/sinks/drain.h:43-60 | on the trace of any run eager mode throws nothing |
| PipelineTheorems.PipelineObeys | dk_pull/pull_stream/sinks/drain.h:43-60 | once `onDone` has been called, `Terminate` returns the empty list and the whole trace obeys the protocol |
| PipelineTheorems.TokenConserved | dk_pull/pull_stream/sinks/drain.h:48-58 | exactly one of: not started, issuing, request outstanding, answer in process, `next` not consumed, finished; so never two outstanding requests and none after done |
| PipelineTheorems.StackBounded | dk_pull/looper/looper.cc:36-47 | at most seven activations on the call stack, however long the stream |
| PipelineTheorems.SinkHearsSource | dk_pull/pull_stream/sinks/drain.h:49-56 | the sink hears what the source answered, in order and nothing else; `onDone` comes once and last |
| PipelineTheorems.EveryScheduleDelivers | dk_pull/pull_stream/sinks/drain.h:43-60 | total correctness: with a stream of n values and an end, every schedule has at most 9n + 13 steps, and at rest the sink has received exactly the stream |
| PipelineTheorems.RestIsTheOnlyStop | dk_pull/looper/looper.cc:36-47 | no deadlock: a state without an enabled step is one with nothing on the stack and nothing owed |
| PipelineTheorems.StreamGoesOn | dk_pull/pull_stream/sinks/drain.h:43-60 | progress within the stream: unless everything is at rest, some enabled step keeps to the stream |
| PipelineTheorems.StreamCanFinish | dk_pull/pull_stream/sinks/drain.h:43-60 | every run that keeps to the stream extends to one in which everything has been delivered |
| PipelineTheorems.RestIsFinished | dk_pull/pull_stream/sinks/drain.h:50-53 | at rest `onDone` has been called, for an arbitrary source |
| PipelineTheorems.ValuesPipeline | dk_pull/pull_stream/sources/values.h:43-60 | `Values` piped to Drain terminates and delivers the list, then one end |
| PipelineTheorems.CountPipeline | dk_pull/pull_stream/sources/count.cc:36-51 | `Count` piped to Drain delivers 0..maximum, then one end, for every maximum < 2^64 − 1 |
| PipelineTheorems.CountForever | dk_pull/pull_stream/sources/count.cc:44-50 | at 2^64 − 1 that pipeline never comes to rest |
| PipelineTrampoline.PipelineRefinesTrampoline | dk_pull/pull_stream/sinks/drain.h:48-58 | every run of the pipeline, seen by its Looper, is a run of the trampoline, with one body start per request and no repeated call of `next` |
| PipelineTrampoline.RequestsFollowNext | dk_pull/pull_stream/sinks/drain.h:48-58 | at rest the sink has made one request for `Start` and one for each call of `next` |
| Reducing.Reduce.OnValue | dk_pull/pull_stream/sinks/reduce.h:55-60 | the accumulator after one value |
| Reducing.Reduce.OnDone | dk_pull/pull_stream/sinks/reduce.h:61-65 | the final callback gets the done and the accumulator |
| Reducing.Reduce.Sink | dk_pull/pull_stream/sinks/reduce.h:52-65 | the sink can be used once and hands its two functions to a new Drain |
| Reducing.Drain.HandleAnswer | dk_pull/pull_stream/sinks/drain.h:49-56 | an end goes to `onDone` and stops, a value goes to `onValue` and is followed by `next` |
| Reducing.ReduceFolds | dk_pull/pull_stream/sinks/reduce.h:46-68 | in every reachable state, for an arbitrary source: the accumulator is the left fold of the values received, and the callback has run once if the stream is finished and not before |
| Reducing.ReduceOfStream | dk_pull/pull_stream/sinks/reduce.h:46-68 | for a finite stream under any schedule: exactly one callback, with the end (an error included) and the fold of all values |
| Reducing.CollectOfStream | dk_pull/pull_stream/sinks/collect.h:31-42 | `MakeCollect` hands the stream itself to its callback |
| DrainRuns.DrainRun.LooperFunction | dk_pull/pull_stream/sinks/drain.h:48-57 | the looper function makes its request through the monitor, which accepts it, and returns with the call stack as it was and the objects still in step with the machine |
| DrainRuns.DrainRun.AskSource | dk_pull/pull_stream/sources/values.h:43-60 | the source answers inside the call or owes its answer; either way what is answered, owed and left is the list |
| DrainRuns.DrainRun.HandleReply | dk_pull/pull_stream/protocol_checker.h:94-125 | an answer passes the monitor without a report or an exception and reaches the sink, and everything it sets off has run when it returns |
| DrainRuns.DrainRun.PassOn | dk_pull/pull_stream/protocol_checker.h:94-124 | the monitor's part: no exception, and the sink's callback is called with the done and value the machine has |
| DrainRuns.DrainRun.HandleAnswer | dk_pull/pull_stream/sinks/drain.h:49-56 | `onDone`, or `onValue` and then `next`; the reducer is in the state of the fold so far |
| DrainRuns.DrainRun.Next | dk_pull/looper/looper.cc:34-48 | the trampoline loop re-entering the real looper function: the flags and the call stack are those of the machine before and after |
| DrainRuns.DrainRun.Start | dk_pull/looper/looper.cc:32 | the first body, with all that its synchronous answers set off; ends with an empty stack |
| DrainRuns.DrainRun.RunEvents | dk_pull/pull_stream/sinks/drain.h:43-60 | after the event loop, for any mix of immediate and later answers and any options: the reducer's callback has run exactly once with the end and the fold of all values, and `Terminate` returns the empty list |
| SplitStrings.SplitString | dk_pull/common/split_string.cc:25-41 | the find loop computes the tokens of the string, none for the empty string |
| SplitStrings.SplitThenJoin | dk_pull/common/split_string.cc:25-41 | joining the tokens gives the string back; they are free of the delimiter and one more than the delimiters unless the string is empty |
| SplitStrings.JoinThenSplit | dk_pull/common/split_string.cc:25-41 | splitting a joined list gives it back if and only if its tokens are free of the delimiter and it is not the list of one empty token |

## Left out

- DrainRuns.DrainRun.RunEvents: the objects are run over `Values` only; an arbitrary source, and one that answers an older request while it serves a newer one, are covered by `PipelineMachine`, on values.
- Reducing.Drain.HandleAnswer: Drain's callback up to its call of `next`, with the two functions that Reduce gives it; Drain with other functions is covered by the sink calls of `PipelineMachine`.
- Loopers.Looper.RunLooperFunction: the looper function is a script of effects and calls of `next`, not a closure; a script is finite, while the runs of `LooperMachine` are not bounded.
- ProtocolCheckers.ProtocolChecker.HandleCallback: the source passes its `done` field by reference to the sink's callback; the model passes its value at the time of the call, and likewise for the `aborted` field passed on with a missing callback.
- Reducing.Reduce.Sink: creates the Drain and does not run it on a source; that is `DrainRuns.DrainRun.Start`.
- Reducing.Reduce.OnDone: the accumulator is moved out of the object in C++; the model keeps it, which cannot be seen because `onDone` comes last.
- The text of the messages: violations are a datatype with the invariant, the ids and the count.
- Overflow of the monitor's own counters: they are natural numbers. Only `Count` has 64 bits.
- Exceptions other than those of eager notification: a looper function or a user callback that throws is not part of this model.
- Object lifetimes: `shared_ptr` and `weak_ptr` are taken to be alive.
- More than one `Start` on a Looper, and a second use of a Reduce sink, which the code rejects with a CHECK.
- User functions that call back into the pipeline from `onValue` or `onDone`.
- The event loop, timers and threads; `Pull`, `Link`, `Finally`, the empty source and the sink that only aborts, which would add easy members only.
