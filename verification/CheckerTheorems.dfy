/** What the monitor's verdict means: its reports against declarative properties of whole traces. */
module CheckerTheorems {
  import opened EndOrErrors
  import opened CheckerSpec

  /** The ids 1, 2, ..., n. */
  function UpTo(n: nat): seq<nat> {
    seq(n, j => j + 1)
  }

  // ----- The protocol, stated without the monitor -----

  /** After the end, requests must carry an abort and callbacks a done; with `forbidExtraRequests`
      there must be no request at all. */
  ghost predicate EndRespected<T>(options: Options, trace: seq<Event<T>>) {
    forall k :: 0 <= k < |trace| && EndedBefore(trace, k) ==>
      && EndsStream(trace[k])
      && (options.forbidExtraRequests ==> !trace[k].Request?)
  }

  /** Every request is answered exactly once and in order, the end is respected, and the stream ends
      when the options ask for that. */
  ghost predicate Obeys<T>(options: Options, trace: seq<Event<T>>) {
    && Ids(trace) == UpTo(Requests(trace))
    && EndRespected(options, trace)
    && (options.enforceStreamTermination ==> EndedBefore(trace, |trace|))
  }

  // ----- What each field of the monitor holds -----

  lemma CausalInit<T>(trace: seq<Event<T>>)
    requires trace != [] && Causal(trace)
    ensures Causal(Init(trace))
    ensures Last(trace).Callback? ==> 1 <= Last(trace).id <= Requests(Init(trace))
  {
    var init := Init(trace);
    forall k | 0 <= k < |init| && init[k].Callback?
      ensures 1 <= init[k].id <= Requests(init[..k])
    {
      assert init[..k] == trace[..k] && init[k] == trace[k];
    }
    assert trace[..|trace| - 1] == init;
  }

  lemma EndedSnoc<T>(trace: seq<Event<T>>)
    requires trace != []
    ensures forall k :: 0 <= k < |trace| ==> (EndedBefore(trace, k) <==> EndedBefore(Init(trace), k))
    ensures EndedBefore(trace, |trace|) <==> EndedBefore(Init(trace), |trace| - 1) || EndsStream(Last(trace))
  {
    assert forall j :: 0 <= j < |trace| - 1 ==> Init(trace)[j] == trace[j];
  }

  /** `skipped` would have to hold false for an id to excuse its missing callback. */
  ghost predicate ExcusesNone(skipped: map<nat, bool>) {
    forall id :: id in skipped ==> skipped[id]
  }

  lemma StepFields<T>(options: Options, s: State, event: Event<T>)
    ensures var t := Step(options, s, event);
            && t.i == s.i + (if event.Request? then 1 else 0)
            && (t.Terminated() <==> s.Terminated() || EndsStream(event))
            && (ExcusesNone(s.skipped) ==> ExcusesNone(t.skipped))
            && (t.latest == s.latest || (event.Callback? && t.latest == event.id))
  {
  }

  /** `i` counts the requests, the two sticky flags say whether the stream has ended, and `skipped`
      never holds false, so that it never excuses a missing callback. */
  lemma {:induction false} FieldsMean<T>(options: Options, trace: seq<Event<T>>)
    ensures var s := Run(options, trace);
            && s.i == Requests(trace) + 1
            && (s.Terminated() <==> EndedBefore(trace, |trace|))
            && ExcusesNone(s.skipped)
            && (s.latest == 0 || s.latest in Ids(trace))
  {
    if trace != [] {
      FieldsMean(options, Init(trace));
      EndedSnoc(trace);
      StepFields(options, Run(options, Init(trace)), Last(trace));
    }
  }

  lemma {:induction false} IdsAreIssued<T>(trace: seq<Event<T>>)
    requires Causal(trace)
    ensures forall id :: id in Ids(trace) ==> 1 <= id <= Requests(trace)
  {
    if trace != [] {
      CausalInit(trace);
      IdsAreIssued(Init(trace));
    }
  }

  lemma LatestBelowNext<T>(options: Options, trace: seq<Event<T>>)
    requires Causal(trace)
    ensures Run(options, trace).latest < Run(options, trace).i
  {
    FieldsMean(options, trace);
    IdsAreIssued(trace);
  }

  lemma StepCounter<T>(options: Options, s: State, event: Event<T>, id: nat)
    ensures Step(options, s, event).Counter(id) ==
            if event.Request? then (if event.hasCallback && id == s.i then 0 else s.Counter(id))
            else s.Counter(id) + (if event.id == id then 1 else 0)
  {
  }

  /** How often `id` occurs in `ids`. */
  function Times(ids: seq<nat>, id: nat): nat {
    if ids == [] then 0 else Times(Init(ids), id) + if Last(ids) == id then 1 else 0
  }

  lemma {:induction false} TimesZero(ids: seq<nat>, id: nat)
    ensures Times(ids, id) == 0 <==> id !in ids
  {
    if ids != [] {
      TimesZero(Init(ids), id);
      assert ids == Init(ids) + [Last(ids)];
    }
  }

  /** The counter shared by the invocations of callback `id` counts exactly those. */
  lemma {:induction false} CountersCount<T>(options: Options, trace: seq<Event<T>>, id: nat)
    requires Causal(trace)
    ensures Run(options, trace).Counter(id) == Times(Ids(trace), id)
  {
    if trace != [] {
      var init, event := Init(trace), Last(trace);
      CausalInit(trace);
      CountersCount(options, init, id);
      StepCounter(options, Run(options, init), event, id);
      if event.Request? {
        IdsAreIssued(init);
        FieldsMean(options, init);
        TimesZero(Ids(init), id);
      }
    }
  }

  // ----- Exactness of the verdict -----

  /** The condition that the last event adds to `EndRespected`. */
  lemma EndRespectedSnoc<T>(options: Options, trace: seq<Event<T>>)
    requires trace != []
    ensures EndRespected(options, trace) <==>
            && EndRespected(options, Init(trace))
            && (EndedBefore(Init(trace), |trace| - 1) ==>
                  EndsStream(Last(trace)) && (options.forbidExtraRequests ==> !Last(trace).Request?))
  {
    EndedSnoc(trace);
    assert forall k :: 0 <= k < |trace| - 1 ==> Init(trace)[k] == trace[k];
    if EndRespected(options, trace) {
      assert EndedBefore(trace, |trace| - 1) ==> EndsStream(trace[|trace| - 1]);
    }
  }

  /** When an event adds nothing to a clean record. */
  lemma StepClean<T>(options: Options, s: State, event: Event<T>)
    ensures Step(options, s, event).errors == [] <==>
            && s.errors == []
            && (s.Terminated() ==> EndsStream(event) && (options.forbidExtraRequests ==> !event.Request?))
            && (event.Callback? ==> s.Counter(event.id) == 0 && s.latest <= event.id <= s.latest + 1)
    ensures event.Callback? ==>
              Step(options, s, event).latest == if s.latest <= event.id <= s.latest + 1 then event.id else s.latest
  {
  }

  lemma {:induction false} CleanExactly<T>(options: Options, trace: seq<Event<T>>)
    requires Causal(trace)
    ensures Run(options, trace).errors == [] <==>
            Ids(trace) == UpTo(Run(options, trace).latest) && EndRespected(options, trace)
  {
    if trace == [] {
      return;
    }
    var init, event := Init(trace), Last(trace);
    CausalInit(trace);
    CleanExactly(options, init);
    EndRespectedSnoc(options, trace);
    FieldsMean(options, init);
    StepClean(options, Run(options, init), event);
    StepFields(options, Run(options, init), event);
    if event.Callback? {
      CountersCount(options, init, event.id);
      ExtendsInOrder(Ids(init), Run(options, init).latest, event.id, Run(options, trace).latest);
    }
  }

  /** Appending an id keeps the list of the form 1..n exactly when it is the next fresh one. */
  lemma ExtendsInOrder(ids: seq<nat>, latest: nat, id: nat, latest': nat)
    requires id >= 1 && (latest == 0 || latest in ids)
    requires latest' == if latest <= id <= latest + 1 then id else latest
    ensures ids + [id] == UpTo(latest') <==>
            ids == UpTo(latest) && Times(ids, id) == 0 && latest <= id <= latest + 1
  {
    TimesZero(ids, id);
    if ids + [id] == UpTo(latest') {
      OrderedBefore(ids, id, latest');
    }
    if ids == UpTo(latest) && latest <= id <= latest + 1 && id !in ids {
      assert latest > 0 ==> ids[latest - 1] == latest;
      assert id == latest + 1;
      assert UpTo(latest + 1) == UpTo(latest) + [latest + 1];
    }
  }

  lemma OrderedBefore(ids: seq<nat>, id: nat, n: nat)
    requires ids + [id] == UpTo(n)
    ensures id == n && ids == UpTo(n - 1) && forall x :: x in ids ==> 1 <= x < n
  {
    var all := ids + [id];
    assert |all| == n && all[n - 1] == id;
    assert forall j :: 0 <= j < n - 1 ==> ids[j] == all[j] == j + 1;
  }

  /** The functions on traces, when one event is appended. */
  lemma Extend<T>(options: Options, trace: seq<Event<T>>, event: Event<T>)
    ensures Requests(trace + [event]) == Requests(trace) + if event.Request? then 1 else 0
    ensures Ids(trace + [event]) == Ids(trace) + if event.Callback? then [event.id] else []
    ensures Run(options, trace + [event]) == Step(options, Run(options, trace), event)
  {
    assert Init(trace + [event]) == trace && Last(trace + [event]) == event;
  }

  /** `Terminate` makes one report for each id from `k` to `i - 1`, since `skipped` excuses none. */
  lemma {:induction false} MissingCount(k: nat, i: nat, skipped: map<nat, bool>)
    requires k <= i && ExcusesNone(skipped)
    ensures |Missing(k, i, skipped)| == i - k
    decreases i - k
  {
    if k < i {
      MissingCount(k + 1, i, skipped);
    }
  }

  /** Soundness and completeness: one `Terminate` at the end returns the empty list exactly for the
      traces that obey the protocol. */
  lemma MonitorExact<T>(options: Options, trace: seq<Event<T>>)
    requires Causal(trace)
    ensures Report(options, trace) == [] <==> Obeys(options, trace)
  {
    var s := Run(options, trace);
    FieldsMean(options, trace);
    LatestBelowNext(options, trace);
    MissingCount(s.latest + 1, s.i, s.skipped);
    CleanExactly(options, trace);
    if Obeys(options, trace) {
      var n := Requests(trace);
      LatestOfOrdered(options, trace, n);
    }
  }

  lemma {:induction false} LatestOfOrdered<T>(options: Options, trace: seq<Event<T>>, n: nat)
    requires Ids(trace) == UpTo(n)
    ensures Run(options, trace).latest == n
  {
    if trace != [] {
      if Last(trace).Callback? {
        assert Ids(Init(trace)) == Ids(trace)[..n - 1] == UpTo(n - 1);
        assert Last(Ids(trace)) == n;
        LatestOfOrdered(options, Init(trace), n - 1);
      } else {
        LatestOfOrdered(options, Init(trace), n);
      }
    }
  }
}
