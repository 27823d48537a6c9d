/**
 The trampoline in its own form, a `while` loop that re-enters the looper function, and the simple
 program it stands for, in which `next` calls the looper function directly.
 */
module Loopers {
  import opened LooperMachine

  /** What a run of the looper function does: an effect, a call of `next`, or handing `next` to the
      event loop for later. */
  datatype Act<E> = Emit(effect: E) | SyncNext | DeferNext

  /** Everything outside the Looper: what the coming runs of the looper function will do (they do
      nothing when the script is used up), the effects so far, and the `next` calls in the event loop. */
  datatype World<E> = World(script: seq<seq<Act<E>>>, log: seq<E>, deferred: nat)

  // ----- The simple program -----

  function NaiveBody<E>(w: World<E>): (r: World<E>)
    ensures |r.script| <= |w.script| && (w.script != [] ==> |r.script| < |w.script|)
    ensures w.script == [] ==> r == w
    decreases |w.script|, 0, 0
  {
    if w.script == [] then w else NaiveActs(w.script[0], w.(script := w.script[1..]))
  }

  function NaiveActs<E>(acts: seq<Act<E>>, w: World<E>): (r: World<E>)
    ensures |r.script| <= |w.script|
    decreases |w.script|, 1, |acts|
  {
    if acts == [] then w else
      NaiveActs(acts[1..], match acts[0]
                           case Emit(effect) => w.(log := w.log + [effect])
                           case SyncNext => NaiveBody(w)
                           case DeferNext => w.(deferred := w.deferred + 1))
  }

  function NaiveEvents<E>(w: World<E>): World<E>
    decreases |w.script|, w.deferred
  {
    if w.deferred == 0 then w else NaiveEvents(NaiveBody(w.(deferred := w.deferred - 1)))
  }

  // ----- The trampoline as a function -----

  /** One run under a driver: a call of `next` only leaves its mark. */
  function DrivenActs<E>(acts: seq<Act<E>>, w: World<E>): (r: (World<E>, bool))
    ensures r.0.script == w.script
    decreases |acts|
  {
    if acts == [] then (w, false) else
      var (after, called) := DrivenActs(acts[1..], match acts[0]
                                                   case Emit(effect) => w.(log := w.log + [effect])
                                                   case SyncNext => w
                                                   case DeferNext => w.(deferred := w.deferred + 1));
      (after, called || acts[0].SyncNext?)
  }

  function Driven<E>(w: World<E>): (World<E>, bool) {
    if w.script == [] then (w, false) else DrivenActs(w.script[0], w.(script := w.script[1..]))
  }

  /** The driver loop: run, and run again as long as the run called `next`. */
  function Chain<E>(w: World<E>): (r: World<E>)
    ensures |r.script| <= |w.script| && (w.script != [] ==> |r.script| < |w.script|)
    ensures w.script == [] ==> r == w
    decreases |w.script|
  {
    var (after, called) := Driven(w);
    if called then Chain(after) else after
  }

  /** The run that `Start` makes: each of its calls of `next` becomes a driver loop of its own. */
  function FirstActs<E>(acts: seq<Act<E>>, w: World<E>): (r: World<E>)
    ensures |r.script| <= |w.script|
    decreases |acts|
  {
    if acts == [] then w else
      FirstActs(acts[1..], match acts[0]
                           case Emit(effect) => w.(log := w.log + [effect])
                           case SyncNext => Chain(w)
                           case DeferNext => w.(deferred := w.deferred + 1))
  }

  function First<E>(w: World<E>): World<E> {
    if w.script == [] then w else FirstActs(w.script[0], w.(script := w.script[1..]))
  }

  function LooperEvents<E>(w: World<E>): World<E>
    decreases |w.script|, w.deferred
  {
    if w.deferred == 0 then w else LooperEvents(Chain(w.(deferred := w.deferred - 1)))
  }

  // ----- Refinement -----

  /** `next` is called synchronously at most once, and after that only handed to the event loop. */
  ghost predicate TailCall<E>(acts: seq<Act<E>>) {
    forall j, k :: 0 <= j < k < |acts| && acts[j].SyncNext? ==> acts[k].DeferNext?
  }

  ghost predicate TailCalls<E>(script: seq<seq<Act<E>>>) {
    forall k :: 0 <= k < |script| ==> TailCall(script[k])
  }

  /** The world with `n` more calls of `next` in the event loop. */
  function Deferring<E>(w: World<E>, n: nat): World<E> {
    w.(deferred := w.deferred + n)
  }

  lemma {:induction false} BodyDefers<E>(w: World<E>, n: nat)
    ensures NaiveBody(Deferring(w, n)) == Deferring(NaiveBody(w), n)
    decreases |w.script|, 0, 0
  {
    if w.script != [] {
      var rest := w.(script := w.script[1..]);
      ActsDefer(w.script[0], rest, n);
    }
  }

  lemma {:induction false} ActsDefer<E>(acts: seq<Act<E>>, w: World<E>, n: nat)
    ensures NaiveActs(acts, Deferring(w, n)) == Deferring(NaiveActs(acts, w), n)
    decreases |w.script|, 1, |acts|
  {
    if acts != [] {
      match acts[0] {
        case Emit(effect) => ActsDefer(acts[1..], w.(log := w.log + [effect]), n);
        case SyncNext =>
          BodyDefers(w, n);
          ActsDefer(acts[1..], NaiveBody(w), n);
        case DeferNext => ActsDefer(acts[1..], Deferring(w, 1), n);
      }
    }
  }

  /** Acts that only defer do the same in both programs. */
  lemma {:induction false} OnlyDefers<E>(acts: seq<Act<E>>, w: World<E>)
    requires forall k :: 0 <= k < |acts| ==> acts[k].DeferNext?
    ensures NaiveActs(acts, w) == Deferring(w, |acts|)
    ensures DrivenActs(acts, w) == (Deferring(w, |acts|), false)
    decreases |acts|
  {
    if acts != [] {
      OnlyDefers(acts[1..], Deferring(w, 1));
    }
  }

  /** A driven body, and the rest of the chain if it has called `next`. */
  function DrivenThen<E>(acts: seq<Act<E>>, w: World<E>): World<E> {
    var (after, called) := DrivenActs(acts, w);
    if called then Chain(after) else after
  }

  lemma {:induction false} TailActs<E>(acts: seq<Act<E>>, w: World<E>)
    requires TailCall(acts)
    ensures var (after, called) := DrivenActs(acts, w);
            NaiveActs(acts, w) == if called then NaiveBody(after) else after
    decreases |acts|
  {
    if acts == [] {
      return;
    }
    match acts[0] {
      case Emit(effect) => TailActs(acts[1..], w.(log := w.log + [effect]));
      case SyncNext =>
        OnlyDefers(acts[1..], w);
        OnlyDefers(acts[1..], NaiveBody(w));
        BodyDefers(w, |acts| - 1);
      case DeferNext => TailActs(acts[1..], Deferring(w, 1));
    }
  }

  lemma {:induction false} ChainIsNaive<E>(w: World<E>)
    requires TailCalls(w.script)
    ensures Chain(w) == NaiveBody(w)
    ensures TailCalls(Chain(w).script)
    decreases |w.script|
  {
    if w.script != [] {
      TailActs(w.script[0], w.(script := w.script[1..]));
      var (after, called) := Driven(w);
      if called {
        ChainIsNaive(after);
      }
    }
  }

  /** The first body may call `next` as often and wherever it likes: each call is a driver loop that is
      over when the call returns. */
  lemma {:induction false} FirstIsNaive<E>(acts: seq<Act<E>>, w: World<E>)
    requires TailCalls(w.script)
    ensures FirstActs(acts, w) == NaiveActs(acts, w)
    ensures TailCalls(FirstActs(acts, w).script)
    decreases |acts|
  {
    if acts != [] {
      match acts[0] {
        case Emit(effect) => FirstIsNaive(acts[1..], w.(log := w.log + [effect]));
        case SyncNext =>
          ChainIsNaive(w);
          FirstIsNaive(acts[1..], Chain(w));
        case DeferNext => FirstIsNaive(acts[1..], Deferring(w, 1));
      }
    }
  }

  lemma {:induction false} EventsAreNaive<E>(w: World<E>)
    requires TailCalls(w.script)
    ensures LooperEvents(w) == NaiveEvents(w)
    decreases |w.script|, w.deferred
  {
    if w.deferred > 0 {
      var w' := w.(deferred := w.deferred - 1);
      ChainIsNaive(w');
      EventsAreNaive(Chain(w'));
    }
  }

  /** When every body but the first calls `next` at most once and in tail position, under any mix of
      synchronous and deferred calls, the trampoline has the effects of the simple program, in the same
      order, and uses up the same runs. */
  lemma LooperRefinesNaive<E>(w: World<E>)
    requires w.script != [] ==> TailCalls(w.script[1..])
    ensures First(w) == NaiveBody(w)
    ensures LooperEvents(First(w)) == NaiveEvents(NaiveBody(w))
  {
    if w.script != [] {
      FirstIsNaive(w.script[0], w.(script := w.script[1..]));
    }
    EventsAreNaive(First(w));
  }

  // ----- The condition is exact -----

  /** A program in which `acts` is the first body that a driver runs. */
  function Driving<E>(acts: seq<Act<E>>, w: World<E>): World<E> {
    w.(script := [[SyncNext], acts] + w.script)
  }

  lemma DrivingRuns<E>(acts: seq<Act<E>>, w: World<E>)
    ensures First(Driving(acts, w)) == DrivenThen(acts, w)
    ensures NaiveBody(Driving(acts, w)) == NaiveActs(acts, w)
  {
    var d := Driving(acts, w);
    var call: seq<Act<E>> := [SyncNext];
    var next := d.(script := d.script[1..]);
    assert d.script[0] == call && call[1..] == [];
    assert next.script == [acts] + w.script && next.script[1..] == w.script;
    assert Driven(next) == DrivenActs(acts, w);
    assert First(d) == FirstActs([], Chain(next));
    assert NaiveBody(d) == NaiveActs([], NaiveBody(next));
  }

  function Syncs<E>(acts: seq<Act<E>>): nat
    decreases |acts|
  {
    if acts == [] then 0 else Syncs(acts[1..]) + if acts[0].SyncNext? then 1 else 0
  }

  lemma {:induction false} SyncsCount<E>(acts: seq<Act<E>>, k: nat)
    requires k < |acts| && acts[k].SyncNext?
    ensures Syncs(acts) >= 1
    ensures forall j :: 0 <= j < k && acts[j].SyncNext? ==> Syncs(acts) >= 2
    decreases |acts|
  {
    if k > 0 {
      SyncsCount(acts[1..], k - 1);
    }
  }

  lemma {:induction false} DrivenCalls<E>(acts: seq<Act<E>>, w: World<E>)
    ensures DrivenActs(acts, w).1 <==> Syncs(acts) >= 1
    decreases |acts|
  {
    if acts != [] {
      DrivenCalls(acts[1..], match acts[0]
                             case Emit(effect) => w.(log := w.log + [effect])
                             case SyncNext => w
                             case DeferNext => Deferring(w, 1));
    }
  }

  /** In front of bodies that do nothing, the simple program uses up one for each synchronous call. */
  lemma {:induction false} EmptyBodies<E>(acts: seq<Act<E>>, w: World<E>)
    requires forall k :: 0 <= k < |w.script| ==> w.script[k] == []
    ensures |NaiveActs(acts, w).script| == if Syncs(acts) <= |w.script| then |w.script| - Syncs(acts) else 0
    decreases |acts|
  {
    if acts != [] {
      match acts[0] {
        case Emit(effect) => EmptyBodies(acts[1..], w.(log := w.log + [effect]));
        case SyncNext =>
          var next := if w.script == [] then w else w.(script := w.script[1..]);
          assert NaiveBody(w) == next;
          EmptyBodies(acts[1..], next);
        case DeferNext => EmptyBodies(acts[1..], Deferring(w, 1));
      }
    }
  }

  /** When an effect is the last act but for deferrals, the simple program ends its log with it. */
  lemma {:induction false} EndsWithEffect<E>(acts: seq<Act<E>>, w: World<E>, k: nat)
    requires k < |acts| && acts[k].Emit?
    requires forall j :: k < j < |acts| ==> acts[j].DeferNext?
    ensures var log := NaiveActs(acts, w).log;
            log != [] && log[|log| - 1] == acts[k].effect
    decreases |acts|
  {
    if k == 0 {
      OnlyDefers(acts[1..], w.(log := w.log + [acts[0].effect]));
    } else {
      EndsWithEffect(acts[1..], match acts[0]
                                case Emit(effect) => w.(log := w.log + [effect])
                                case SyncNext => NaiveBody(w)
                                case DeferNext => Deferring(w, 1), k - 1);
    }
  }

  lemma LastNonDefer<E>(acts: seq<Act<E>>, k: nat) returns (last: nat)
    requires k < |acts| && !acts[k].DeferNext?
    ensures k <= last < |acts| && !acts[last].DeferNext?
    ensures forall j :: last < j < |acts| ==> acts[j].DeferNext?
  {
    last := |acts| - 1;
    while acts[last].DeferNext?
      invariant k <= last < |acts|
      invariant forall j :: last < j < |acts| ==> acts[j].DeferNext?
      decreases last
    {
      last := last - 1;
    }
  }

  /** A second call is lost: of two bodies that do nothing the trampoline runs only one. */
  lemma SecondCallDiffers<E>(acts: seq<Act<E>>, w: World<E>)
    requires Syncs(acts) >= 2 && w.script == [[], []]
    ensures DrivenThen(acts, w) != NaiveActs(acts, w)
  {
    EmptyBodies(acts, w);
    DrivenCalls(acts, w);
    var after := DrivenActs(acts, w).0;
    assert Driven(after) == (after.(script := after.script[1..]), false);
    assert |Chain(after).script| == 1;
  }

  /** A late effect is overtaken: the trampoline logs the effect of the next body after it. */
  lemma LateEffectDiffers<E>(acts: seq<Act<E>>, w: World<E>, k: nat, z: E)
    requires Syncs(acts) >= 1 && k < |acts| && acts[k].Emit? && acts[k].effect != z
    requires forall j :: k < j < |acts| ==> acts[j].DeferNext?
    requires w.script == [[Emit(z)]]
    ensures DrivenThen(acts, w) != NaiveActs(acts, w)
  {
    EndsWithEffect(acts, w, k);
    DrivenCalls(acts, w);
    var after := DrivenActs(acts, w).0;
    var emit: seq<Act<E>> := [Emit(z)];
    var rest := after.(script := after.script[1..]);
    assert after.script[0] == emit && emit[1..] == [];
    assert DrivenActs([], rest.(log := rest.log + [z])) == (rest.(log := rest.log + [z]), false);
    assert Driven(after) == (rest.(log := rest.log + [z]), false);
    assert Chain(after).log == after.log + [z];
  }

  lemma NotTailCall<E>(acts: seq<Act<E>>, x: E, y: E) returns (w: World<E>)
    requires x != y && !TailCall(acts)
    ensures TailCalls(w.script) && DrivenThen(acts, w) != NaiveActs(acts, w)
  {
    var j, k :| 0 <= j < k < |acts| && acts[j].SyncNext? && !acts[k].DeferNext?;
    var last := LastNonDefer(acts, k);
    SyncsCount(acts, j);
    if acts[last].SyncNext? {
      w := World([[], []], [], 0);
      SyncsCount(acts, last);
      SecondCallDiffers(acts, w);
    } else {
      var z := if acts[last].effect == x then y else x;
      w := World([[Emit(z)]], [], 0);
      LateEffectDiffers(acts, w, last, z);
    }
  }

  /** The two programs agree. */
  ghost predicate Agrees<E>(w: World<E>) {
    First(w) == NaiveBody(w)
  }

  /** For a driven body the condition is exact: whatever well-behaved bodies follow it, the trampoline
      does what the simple program does, if and only if the body calls `next` in tail position. */
  lemma TailCallExactly<E(!new)>(acts: seq<Act<E>>, x: E, y: E)
    requires x != y
    ensures (forall w: World<E> | TailCalls(w.script) :: Agrees(Driving(acts, w))) <==> TailCall(acts)
  {
    if TailCall(acts) {
      forall w: World<E> | TailCalls(w.script) ensures Agrees(Driving(acts, w)) {
        assert Driving(acts, w).script[1..] == [acts] + w.script;
        LooperRefinesNaive(Driving(acts, w));
      }
    } else {
      var w := NotTailCall(acts, x, y);
      DrivingRuns(acts, w);
      assert !Agrees(Driving(acts, w));
    }
  }

  /** Tail position matters: a driven body with an effect after its call of `next` shows the two
      effects in the opposite order. */
  lemma TailPositionMatters<E>(a: E, b: E)
    ensures var w: World<E> := World([[SyncNext], [SyncNext, Emit(a)], [Emit(b)]], [], 0);
            First(w).log == [a, b] && NaiveBody(w).log == [b, a]
  {
    var one: seq<Act<E>>, two: seq<Act<E>>, three: seq<Act<E>> := [SyncNext], [SyncNext, Emit(a)], [Emit(b)];
    var w1: World<E> := World([two, three], [], 0);
    var w2: World<E> := World([three], [], 0);
    var rest: seq<Act<E>> := [Emit(a)];
    assert one[1..] == [] && two[1..] == rest && three[1..] == [] && rest[1..] == [];
    assert [one, two, three][1..] == [two, three] && [two, three][1..] == [three] && [three][1..] == [];
    assert [] + [a] == [a] && [] + [b] == [b] && [a] + [b] == [a, b] && [b] + [a] == [b, a];
    assert Chain(w1).log == [a, b] by {
      assert DrivenActs(rest, w2) == (World([three], [a], 0), false);
      assert Driven(w1) == (World([three], [a], 0), true);
      assert DrivenActs(three, World([], [a], 0)) == (World([], [a, b], 0), false);
      assert Chain(World([three], [a], 0)) == World([], [a, b], 0);
    }
    assert NaiveBody(w1).log == [b, a] by {
      assert NaiveActs(three, World([], [], 0)) == World([], [b], 0);
      assert NaiveBody(w2) == World([], [b], 0);
      assert NaiveActs(rest, World([], [b], 0)) == World([], [b, a], 0);
    }
    assert NaiveActs(one, w1) == NaiveBody(w1);
  }

  // ----- The class -----

  class Looper<E> {
    var nextCalled: bool
    var looperFunctionReturned: bool
    var world: World<E>               // stands for `looperFunction` and its surroundings
    ghost var history: seq<Action>    // the steps of LooperMachine taken so far

    ghost predicate Valid()
      reads this
    {
      Allowed(history) && Exec(history).flags == Flags(nextCalled, looperFunctionReturned)
    }

    ghost function CallStack(): Stack
      requires Valid()
      reads this
    {
      Exec(history).stack
    }

    constructor (world: World<E>)
      ensures Valid() && history == [] && this.world == world
    {
      nextCalled, looperFunctionReturned := false, true;
      this.world := world;
      history := [];
    }

    ghost method Record(action: Action)
      requires Allowed(history) && Enabled(Exec(history), action)
      modifies this`history
      ensures Allowed(history) && Exec(history) == Step(old(Exec(history)), action)
    {
      ExecSnoc(history, action);
      history := history + [action];
    }

    method Start()
      requires Valid() && history == []
      modifies this
      ensures Valid() && Exec(history).started && CallStack() == Bottom
      ensures !nextCalled && looperFunctionReturned
      ensures world == First(old(world))
    {
      Record(Action.Start);
      RunLooperFunction();
      Record(Advance);
    }

    /** The closure that `makeNext` returns. */
    method Next()
      requires Valid() && Enabled(Exec(history), CallNext)
      modifies this
      ensures Valid() && CallStack() == old(CallStack()) && Exec(history).started
      ensures looperFunctionReturned == old(looperFunctionReturned)
      ensures if old(looperFunctionReturned) then world == Chain(old(world)) && !nextCalled
              else world == old(world) && nextCalled
      decreases |world.script|, 2
    {
      Record(CallNext);
      nextCalled := true;
      if !looperFunctionReturned {
        return;
      }
      looperFunctionReturned := false;
      while nextCalled
        invariant Valid() && Exec(history).started && !looperFunctionReturned
        invariant CallStack() == Push(Driver, old(CallStack()))
        invariant |world.script| <= |old(world.script)|
        invariant (if nextCalled then Chain(world) else world) == Chain(old(world))
        decreases |world.script|, nextCalled
      {
        Record(Advance);
        nextCalled := false;
        RunLooperFunction();
        Record(Advance);
      }
      Record(Advance);
      looperFunctionReturned := true;
    }

    /** One call of the looper function: it takes the next entry of the script and acts it out. */
    method RunLooperFunction()
      requires Valid() && Exec(history).started && !nextCalled
      requires CallStack().Push? && !CallStack().top.Driver?
      modifies this
      ensures Valid() && CallStack() == old(CallStack()) && Exec(history).started
      ensures looperFunctionReturned == old(looperFunctionReturned)
      ensures if old(looperFunctionReturned) then world == First(old(world)) && !nextCalled
              else (world, nextCalled) == Driven(old(world))
      decreases |world.script|, 1
    {
      if |world.script| == 0 {
        return;
      }
      var acts := world.script[0];
      world := world.(script := world.script[1..]);
      ghost var w := world;
      for j := 0 to |acts|
        invariant Valid() && CallStack() == old(CallStack()) && Exec(history).started
        invariant looperFunctionReturned == old(looperFunctionReturned)
        invariant |world.script| <= |w.script|
        invariant looperFunctionReturned ==>
            FirstActs(acts[j..], world) == FirstActs(acts, w) && !nextCalled
        invariant !looperFunctionReturned ==>
            var (after, called) := DrivenActs(acts[j..], world);
            world.script == w.script && (after, nextCalled || called) == DrivenActs(acts, w)
      {
        assert acts[j..][1..] == acts[j + 1..];
        match acts[j]
        case Emit(effect) => world := world.(log := world.log + [effect]);
        case SyncNext => Next();
        case DeferNext => world := world.(deferred := world.deferred + 1);
      }
      assert acts[|acts|..] == [];
    }

    /** The event loop: it calls the deferred `next`s one at a time, on an empty stack. */
    method RunEvents()
      requires Valid() && Exec(history).started && CallStack() == Bottom
      requires looperFunctionReturned && !nextCalled
      modifies this
      ensures Valid() && CallStack() == Bottom && looperFunctionReturned && !nextCalled
      ensures world == LooperEvents(old(world))
    {
      while world.deferred > 0
        invariant Valid() && Exec(history).started && CallStack() == Bottom
        invariant looperFunctionReturned && !nextCalled
        invariant LooperEvents(world) == LooperEvents(old(world))
        decreases |world.script|, world.deferred
      {
        world := world.(deferred := world.deferred - 1);
        Next();
      }
    }
  }
}
