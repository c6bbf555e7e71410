/**
  The guard around a plugin client: calls may overlap each other but never the plugin's shutdown. A mutex and a
  condition variable implement it; every locked section is one step of some thread, and steps interleave freely.
 */
module ClientGuard {
  import opened Prelude

  type Thread = string

  /**
    Where a thread is: outside, inside the plugin's Call, waiting on the condition variable, woken but not yet back
    in the lock, or inside the plugin's Shutdown. The first Shutdown to arrive owns the plugin; later ones only wait.
    A thread may also shut the guard down from inside its own call, which then stays in flight.
   */
  datatype Place =
    | Outside
    | Calling
    | Waiting(owner: bool, inside: bool)
    | Woken(owner: bool, inside: bool)
    | Stopping(inside: bool)

  /** Where a Shutdown returns to. */
  function Back(inside: bool): Place { if inside then Calling else Outside }

  datatype State = State(
    calls: int,
    closed: bool,
    inner: bool,
    places: map<Thread, Place>,
    innerShutdowns: nat,
    shutdownReturned: bool)
  {
    function At(t: Thread): Place { if t in places then places[t] else Outside }
    function Move(t: Thread, p: Place): State { this.(places := places[t := p]) }
  }

  datatype Step =
    | BeginCall(thread: Thread)
    | EndCall(thread: Thread)
    | BeginShutdown(thread: Thread)
    | Resume(thread: Thread)
    | EndShutdown(thread: Thread)

  function Init(hasInner: bool): State { State(0, false, hasInner, map[], 0, false) }

  function Wake(p: Place): Place { if p.Waiting? then Woken(p.owner, p.inside) else p }

  function Broadcast(places: map<Thread, Place>): map<Thread, Place> { map t | t in places :: Wake(places[t]) }

  /** The locked section of Shutdown from the wait loop on: wait while calls are in flight, then go ahead. */
  function AwaitCalls(s: State, t: Thread, owner: bool, inside: bool): State {
    if s.calls > 0 then s.Move(t, Waiting(owner, inside))
    else if owner && s.inner then s.(inner := false, innerShutdowns := s.innerShutdowns + 1).Move(t, Stopping(inside))
    else s.(shutdownReturned := true).Move(t, Back(inside))
  }

  /** A step that its thread is not in a position to take changes nothing. */
  function Apply(s: State, step: Step): State {
    var t := step.thread;
    match step
    case BeginCall(_) =>
      if s.At(t) != Outside || s.closed || !s.inner then s else s.(calls := s.calls + 1).Move(t, Calling)
    case EndCall(_) =>
      if s.At(t) != Calling then s
      else
        var left := s.(calls := s.calls - 1).Move(t, Outside);
        if left.calls == 0 then left.(places := Broadcast(left.places)) else left
    case BeginShutdown(_) =>
      if s.At(t) != Outside && s.At(t) != Calling then s
      else AwaitCalls(s.(closed := true), t, !s.closed, s.At(t) == Calling)
    case Resume(_) =>
      if !s.At(t).Woken? then s else AwaitCalls(s, t, s.At(t).owner, s.At(t).inside)
    case EndShutdown(_) =>
      if !s.At(t).Stopping? then s else s.(shutdownReturned := true).Move(t, Back(s.At(t).inside))
  }

  function Run(hasInner: bool, steps: seq<Step>): State {
    if steps == [] then Init(hasInner) else Apply(Run(hasInner, steps[..|steps| - 1]), steps[|steps| - 1])
  }

  // ---------------------------------------------------------------- the invariant

  /** Is a call in flight at this place, or under it? */
  predicate InFlight(p: Place) {
    p == Calling || (p.Waiting? && p.inside) || (p.Woken? && p.inside) || (p.Stopping? && p.inside)
  }

  function InCall(s: State): set<Thread> { set t | t in s.places && InFlight(s.places[t]) }

  predicate OwnerAt(p: Place) { p.Stopping? || (p.Waiting? && p.owner) || (p.Woken? && p.owner) }

  ghost predicate Invariant(s: State) {
    && s.calls == |InCall(s)|
    && (!s.closed ==> s.innerShutdowns == 0 && !s.shutdownReturned
                      && forall t :: s.At(t) == Outside || s.At(t) == Calling)
    && (forall t | s.At(t).Waiting? :: s.calls > 0)
    && (forall t | s.At(t).Woken? || s.At(t).Stopping? :: s.calls == 0)
    && (s.shutdownReturned ==> s.calls == 0)
    && (forall t, u | OwnerAt(s.At(t)) && OwnerAt(s.At(u)) :: t == u)
    && s.innerShutdowns <= 1
    && (s.innerShutdowns == 1 ==> !s.inner && s.calls == 0
                                  && forall t ::
                                     !(s.At(t).Waiting? && s.At(t).owner) && !(s.At(t).Woken? && s.At(t).owner))
    && (forall t | s.At(t).Stopping? :: s.innerShutdowns == 1)
  }

  lemma EndCallKeepsInvariant(s: State, t: Thread)
    requires Invariant(s) && s.At(t) == Calling
    ensures Invariant(Apply(s, EndCall(t)))
  {
    var u := Apply(s, EndCall(t));
    assert InCall(u) == InCall(s) - {t};
    forall x ensures u.At(x) == if x == t then Outside else if u.calls == 0 then Wake(s.At(x)) else s.At(x) {}
    assert t in InCall(s);
  }

  lemma BeginCallKeepsInvariant(s: State, t: Thread)
    requires Invariant(s) && s.At(t) == Outside && !s.closed && s.inner
    ensures Invariant(Apply(s, BeginCall(t)))
  {
    var u := Apply(s, BeginCall(t));
    assert InCall(u) == InCall(s) + {t};
    forall x ensures u.At(x) == if x == t then Calling else s.At(x) {}
  }

  lemma AwaitKeepsInvariant(s: State, t: Thread, owner: bool, inside: bool)
    requires Invariant(s) && s.closed && (s.At(t) == Back(inside) || (s.At(t).Woken? && s.At(t).inside == inside))
    requires owner ==> s.innerShutdowns == 0 && forall u | u != t :: !OwnerAt(s.At(u))
    ensures Invariant(AwaitCalls(s, t, owner, inside))
  {
    assert inside ==> t in InCall(s);
    var u := AwaitCalls(s, t, owner, inside);
    assert InCall(u) == InCall(s);
    forall x ensures x != t ==> u.At(x) == s.At(x) {}
  }

  lemma StepKeepsInvariant(s: State, step: Step)
    requires Invariant(s)
    ensures Invariant(Apply(s, step))
  {
    var t := step.thread;
    match step
    case BeginCall(_) => if s.At(t) == Outside && !s.closed && s.inner { BeginCallKeepsInvariant(s, t); }
    case EndCall(_) => if s.At(t) == Calling { EndCallKeepsInvariant(s, t); }
    case BeginShutdown(_) =>
      if s.At(t) == Outside || s.At(t) == Calling {
        var c := s.(closed := true);
        assert InCall(c) == InCall(s);
        forall x ensures c.At(x) == s.At(x) {}
        assert Invariant(c);
        AwaitKeepsInvariant(c, t, !s.closed, s.At(t) == Calling);
      }
    case Resume(_) =>
      if s.At(t).Woken? {
        if s.At(t).owner { assert OwnerAt(s.At(t)); }
        AwaitKeepsInvariant(s, t, s.At(t).owner, s.At(t).inside);
      }
    case EndShutdown(_) =>
      var u := Apply(s, step);
      if s.At(t).Stopping? {
        assert InCall(u) == InCall(s);
        forall x ensures x != t ==> u.At(x) == s.At(x) {}
      }
  }

  lemma {:induction false} RunKeepsInvariant(hasInner: bool, steps: seq<Step>)
    ensures Invariant(Run(hasInner, steps))
  {
    if steps == [] {
      assert InCall(Init(hasInner)) == {};
    } else {
      RunKeepsInvariant(hasInner, steps[..|steps| - 1]);
      StepKeepsInvariant(Run(hasInner, steps[..|steps| - 1]), steps[|steps| - 1]);
    }
  }

  // ---------------------------------------------------------------- what a Shutdown that returns has waited for

  /** With the step the thread's Shutdown is over: it was in one, or began it, and is back where it came from. */
  predicate ShutdownReturns(s: State, step: Step) {
    var t := step.thread;
    && (|| (step.BeginShutdown? && (s.At(t) == Outside || s.At(t) == Calling))
        || (step.Resume? && s.At(t).Woken?)
        || (step.EndShutdown? && s.At(t).Stopping?))
    && (Apply(s, step).At(t) == Outside || Apply(s, step).At(t) == Calling)
  }

  /** No Shutdown, first or later, returns while a call is in flight. */
  lemma ReturnLeavesNoCall(s: State, step: Step)
    requires Invariant(s) && ShutdownReturns(s, step)
    ensures InCall(s) == {} && InCall(Apply(s, step)) == {}
  {
    StepKeepsInvariant(s, step);
    if s.At(step.thread) == Calling { assert step.thread in InCall(s); }
    assert InCall(Apply(s, step)) <= InCall(s);
  }

  /** One that begins while a call is in flight waits; either way the guard is closed from then on. */
  lemma BeginningWaitsForCalls(s: State, t: Thread)
    requires Invariant(s) && (s.At(t) == Outside || s.At(t) == Calling)
    ensures Apply(s, BeginShutdown(t)).closed
    ensures InCall(s) != {} <==> Apply(s, BeginShutdown(t)).At(t).Waiting?
  {}

  /** Whoever waits is woken by the end of the last call, and by nothing else. */
  lemma LastCallWakes(s: State, step: Step, t: Thread)
    requires Invariant(s) && s.At(t).Waiting?
    ensures Apply(s, step).At(t) != s.At(t) <==> InCall(Apply(s, step)) == {}
    ensures Apply(s, step).At(t) != s.At(t) ==> Apply(s, step).At(t).Woken? && InCall(s) == {step.thread}
  {
    StepKeepsInvariant(s, step);
    if step.EndCall? && s.At(step.thread) == Calling {
      assert InCall(Apply(s, step)) == InCall(s) - {step.thread};
      assert step.thread in InCall(s);
    }
  }

  // ---------------------------------------------------------------- safety

  /**
    In every interleaving the counter is the number of threads inside Call; the plugin is shut down at most once, and
    from then on no thread is inside Call; a Shutdown that returned left no call in flight; and whoever waits has a
    call to wait for, so no wake-up is lost.
   */
  lemma CallsAndShutdownExclude(hasInner: bool, steps: seq<Step>, t: Thread)
    ensures var s := Run(hasInner, steps);
            && s.calls == |InCall(s)|
            && s.innerShutdowns <= 1
            && (s.innerShutdowns == 1 ==> InCall(s) == {})
            && (s.At(t).Stopping? ==> InCall(s) == {})
            && (s.shutdownReturned ==> InCall(s) == {})
            && (s.At(t).Waiting? ==> InCall(s) != {})
            && (forall step | ShutdownReturns(s, step) :: InCall(s) == {} && InCall(Apply(s, step)) == {})
            && (InCall(s) != {} && (s.At(t) == Outside || s.At(t) == Calling) ==>
                  Apply(s, BeginShutdown(t)).At(t).Waiting?)
  {
    RunKeepsInvariant(hasInner, steps);
    var s := Run(hasInner, steps);
    forall step | ShutdownReturns(s, step) ensures InCall(s) == {} && InCall(Apply(s, step)) == {} {
      ReturnLeavesNoCall(s, step);
    }
    if s.At(t) == Outside || s.At(t) == Calling { BeginningWaitsForCalls(s, t); }
  }

  lemma ClosedStep(s: State, step: Step)
    requires s.closed
    ensures Apply(s, step).closed && InCall(Apply(s, step)) <= InCall(s)
  {}

  /** A shut-down or closing plugin admits no further call, whatever happens next. */
  lemma {:induction false} ClosedForGood(hasInner: bool, steps: seq<Step>, more: seq<Step>)
    requires Run(hasInner, steps).closed
    ensures Run(hasInner, steps + more).closed && InCall(Run(hasInner, steps + more)) <= InCall(Run(hasInner, steps))
  {
    if more == [] {
      assert steps + more == steps;
    } else {
      var front := more[..|more| - 1];
      ClosedForGood(hasInner, steps, front);
      assert (steps + more)[..|steps + more| - 1] == steps + front;
      ClosedStep(Run(hasInner, steps + front), more[|more| - 1]);
    }
  }

  // ---------------------------------------------------------------- progress

  /** How many steps a thread still has to take to get outside. */
  function Remaining(p: Place): nat {
    match p
    case Outside => 0
    case Calling => 1
    case Stopping(inside) => if inside then 2 else 1
    case Woken(_, inside) => if inside then 3 else 2
    case Waiting(_, inside) => if inside then 4 else 3
  }

  ghost function Work(s: State): nat { Sum(map t | t in s.places :: Remaining(s.places[t])) }

  /** Moving threads only closer to the outside, and one of them properly, lowers the sum. */
  lemma {:induction false} WorkDrops(a: map<Thread, Place>, b: map<Thread, Place>, t: Thread)
    requires a.Keys == b.Keys && t in a && Remaining(b[t]) < Remaining(a[t])
    requires forall u | u in a :: Remaining(b[u]) <= Remaining(a[u])
    ensures Sum(map u | u in b :: Remaining(b[u])) < Sum(map u | u in a :: Remaining(a[u]))
  {
    var wa, wb := map u | u in a :: Remaining(a[u]), map u | u in b :: Remaining(b[u]);
    SumWithout(wa, t);
    SumWithout(wb, t);
    SumMonotone(wb - {t}, wa - {t});
  }

  lemma {:induction false} SumMonotone(low: map<string, nat>, high: map<string, nat>)
    requires low.Keys == high.Keys && forall k | k in low :: low[k] <= high[k]
    ensures Sum(low) <= Sum(high)
    decreases |low|
  {
    if low != map[] {
      var k :| k in low;
      SumWithout(low, k);
      SumWithout(high, k);
      assert (low - {k}).Keys == low.Keys - {k};
      SumMonotone(low - {k}, high - {k});
    } else {
      assert high == map[];
    }
  }

  /** Once the guard is closed, every effective step other than a new Shutdown brings the whole closer to quiet. */
  lemma ClosingMakesProgress(s: State, step: Step)
    requires Invariant(s) && s.closed && !step.BeginShutdown? && Apply(s, step) != s
    ensures Work(Apply(s, step)) < Work(s)
  {
    var u := Apply(s, step);
    assert step.thread in s.places;
    WorkDrops(s.places, u.places, step.thread);
  }

  /** A thread that waits in Shutdown for its own call. */
  predicate WaitsForItself(s: State, t: Thread) { s.At(t).Waiting? && s.At(t).inside }

  /** As long as some thread is not outside, some thread can take an effective step, unless one waits for itself. */
  lemma NoDeadlock(s: State, t: Thread) returns (step: Step)
    requires Invariant(s) && s.At(t) != Outside && forall u :: !WaitsForItself(s, u)
    ensures Apply(s, step) != s && !step.BeginShutdown?
  {
    match s.At(t)
    case Calling => step := EndCall(t);
    case Stopping(inside) =>
      step := EndShutdown(t);
      assert Apply(s, step).At(t) == Back(inside);
    case Woken(owner, _) =>
      step := Resume(t);
      assert !Apply(s, step).At(t).Woken?;
    case Waiting(_, _) =>
      assert InCall(s) != {};
      var u :| u in InCall(s);
      assert !WaitsForItself(s, u);
      step := EndCall(u);
  }

  /** A thread that waits for itself does so for good, and keeps every Shutdown from getting to the plugin. */
  lemma WaitingForItselfStays(s: State, step: Step, t: Thread)
    requires Invariant(s) && WaitsForItself(s, t)
    ensures Apply(s, step).At(t) == s.At(t) && s.innerShutdowns == 0 && !s.shutdownReturned
  {
    assert t in InCall(s);
    if step.EndCall? && s.At(step.thread) == Calling {
      assert {t, step.thread} <= InCall(s);
      SubsetNotLarger({t, step.thread}, InCall(s));
    }
  }

  lemma {:induction false} ShutdownInsideCallHangs(hasInner: bool, steps: seq<Step>, more: seq<Step>, t: Thread)
    requires WaitsForItself(Run(hasInner, steps), t)
    ensures Run(hasInner, steps + more).At(t) == Run(hasInner, steps).At(t)
    ensures Run(hasInner, steps + more).innerShutdowns == 0 && !Run(hasInner, steps + more).shutdownReturned
  {
    RunKeepsInvariant(hasInner, steps + more);
    if more == [] {
      assert steps + more == steps;
    } else {
      var front := more[..|more| - 1];
      ShutdownInsideCallHangs(hasInner, steps, front, t);
      RunKeepsInvariant(hasInner, steps + front);
      assert (steps + more)[..|steps + more| - 1] == steps + front;
      WaitingForItselfStays(Run(hasInner, steps + front), more[|more| - 1], t);
    }
    WaitingForItselfStays(Run(hasInner, steps + more), Resume(t), t);
  }

  /** A call that shuts its own guard down. */
  lemma ShutdownInsideCallCanHappen()
    ensures WaitsForItself(Run(true, [BeginCall("a")] + [BeginShutdown("a")]), "a")
  {
    assert ([BeginCall("a")] + [BeginShutdown("a")])[..1] == [] + [BeginCall("a")];
    assert Run(true, [BeginCall("a")]) == Apply(Init(true), BeginCall("a"));
  }

  /** Steps that each do something, none of them starting another Shutdown. */
  ghost predicate Effective(s: State, steps: seq<Step>)
    decreases |steps|
  {
    steps != [] ==>
      && !steps[0].BeginShutdown? && Apply(s, steps[0]) != s
      && Effective(Apply(s, steps[0]), steps[1..])
  }

  function RunFrom(s: State, steps: seq<Step>): State
    decreases |steps|
  {
    if steps == [] then s else RunFrom(Apply(s, steps[0]), steps[1..])
  }

  ghost predicate Quiet(s: State) { forall t :: s.At(t) == Outside }

  predicate OwnerComing(p: Place) { (p.Waiting? || p.Woken?) && p.owner }

  /** While a closed guard still has its plugin, the owning Shutdown is on its way to taking it. */
  ghost predicate OwnerPending(s: State) {
    s.closed && s.inner ==> exists t :: OwnerComing(s.At(t))
  }

  lemma StepKeepsOwnerPending(s: State, step: Step)
    requires Invariant(s) && OwnerPending(s)
    ensures OwnerPending(Apply(s, step))
  {
    var t, u := step.thread, Apply(s, step);
    if u.closed && u.inner {
      if s.closed {
        var o :| OwnerComing(s.At(o));
        assert u.At(o) == s.At(o) || u.At(o) == Wake(s.At(o));
      } else {
        assert OwnerComing(u.At(t));
      }
    }
  }

  function Plugins(s: State): nat { (if s.inner then 1 else 0) + s.innerShutdowns }

  /** The plugin is either still held or has been shut down: it is never dropped. */
  lemma {:induction false} PluginConserved(hasInner: bool, steps: seq<Step>)
    ensures Plugins(Run(hasInner, steps)) == if hasInner then 1 else 0
    ensures OwnerPending(Run(hasInner, steps))
  {
    if steps != [] {
      var front := steps[..|steps| - 1];
      PluginConserved(hasInner, front);
      RunKeepsInvariant(hasInner, front);
      StepKeepsOwnerPending(Run(hasInner, front), steps[|steps| - 1]);
    }
  }

  /** However the remaining steps of a closed guard are scheduled, there are at most Work of them. */
  lemma {:induction false} ClosingTerminates(s: State, steps: seq<Step>)
    requires Invariant(s) && OwnerPending(s) && s.closed && Effective(s, steps)
    ensures |steps| + Work(RunFrom(s, steps)) <= Work(s)
    ensures Invariant(RunFrom(s, steps)) && OwnerPending(RunFrom(s, steps)) && RunFrom(s, steps).closed
    ensures Plugins(RunFrom(s, steps)) == Plugins(s)
    decreases |steps|
  {
    if steps != [] {
      StepKeepsInvariant(s, steps[0]);
      StepKeepsOwnerPending(s, steps[0]);
      ClosedStep(s, steps[0]);
      ClosingMakesProgress(s, steps[0]);
      ClosingTerminates(Apply(s, steps[0]), steps[1..]);
    }
  }

  /** Steps other than a new Shutdown make no thread wait for itself, and free none that does. */
  lemma {:induction false} SameSelfWaiters(s: State, steps: seq<Step>, t: Thread)
    requires Invariant(s) && Effective(s, steps)
    ensures WaitsForItself(RunFrom(s, steps), t) <==> WaitsForItself(s, t)
    decreases |steps|
  {
    if steps != [] {
      StepKeepsInvariant(s, steps[0]);
      if WaitsForItself(s, t) { WaitingForItselfStays(s, steps[0], t); }
      assert s.At(t).Woken? && s.At(t).inside ==> t in InCall(s);
      SameSelfWaiters(Apply(s, steps[0]), steps[1..], t);
    }
  }

  /**
    Once Shutdown was called, every schedule that keeps taking effective steps comes to an end. At its end every call
    and every Shutdown has returned if and only if no thread had called Shutdown from inside its own call, and then the
    plugin, if there was one, has been shut down exactly once; otherwise it is never shut down.
   */
  lemma EveryScheduleEndsQuiet(hasInner: bool, before: seq<Step>, steps: seq<Step>)
    requires Run(hasInner, before).closed && Effective(Run(hasInner, before), steps)
    requires forall step: Step | !step.BeginShutdown? ::
               Apply(RunFrom(Run(hasInner, before), steps), step) == RunFrom(Run(hasInner, before), steps)
    ensures |steps| <= Work(Run(hasInner, before))
    ensures var selfWaiting := exists t :: WaitsForItself(Run(hasInner, before), t);
            var end := RunFrom(Run(hasInner, before), steps);
            && (Quiet(end) <==> !selfWaiting)
            && end.innerShutdowns == if hasInner && !selfWaiting then 1 else 0
  {
    RunKeepsInvariant(hasInner, before);
    PluginConserved(hasInner, before);
    ClosingTerminates(Run(hasInner, before), steps);
    var start, end := Run(hasInner, before), RunFrom(Run(hasInner, before), steps);
    forall t ensures WaitsForItself(end, t) <==> WaitsForItself(start, t) { SameSelfWaiters(start, steps, t); }
    if t :| WaitsForItself(start, t) {
      assert WaitsForItself(end, t);
      WaitingForItselfStays(end, Resume(t), t);
    } else {
      forall t ensures end.At(t) == Outside {
        if end.At(t) != Outside { var step := NoDeadlock(end, t); }
      }
    }
  }

  // ---------------------------------------------------------------- the code, one method for each locked section

  class GuardedClient {
    var calls: int
    var closed: bool
    var inner: bool
    /** Where every thread is, and what happened to the plugin. */
    ghost var state: State

    ghost predicate Valid()
      reads this
    {
      Invariant(state) && state.calls == calls && state.closed == closed && state.inner == inner
    }

    constructor (hasInner: bool)
      ensures Valid() && state == Init(hasInner)
    {
      calls, closed, inner := 0, false, hasInner;
      state := Init(hasInner);
      new;
      RunKeepsInvariant(hasInner, []);
    }

    /** Enter a call, unless the guard is closed or has no plugin. */
    method Acquire(ghost t: Thread) returns (ok: bool)
      requires Valid() && state.At(t) == Outside
      modifies this
      ensures Valid() && state == Apply(old(state), BeginCall(t))
      ensures ok <==> !old(closed) && old(inner)
      ensures ok <==> t in InCall(state)
    {
      StepKeepsInvariant(state, BeginCall(t));
      state := Apply(state, BeginCall(t));
      if closed || !inner { return false; }
      calls := calls + 1;
      return true;
    }

    method Release(ghost t: Thread)
      requires Valid() && state.At(t) == Calling
      modifies this
      ensures Valid() && state == Apply(old(state), EndCall(t))
      ensures calls >= 0
    {
      StepKeepsInvariant(state, EndCall(t));
      state := Apply(state, EndCall(t));
      calls := calls - 1;
    }

    /** Shutdown up to its first wait, its return, or its hold of the plugin; it may be called from inside a call. */
    method EnterShutdown(ghost t: Thread) returns (owner: bool, mustWait: bool, plugin: bool)
      requires Valid() && (state.At(t) == Outside || state.At(t) == Calling)
      modifies this
      ensures Valid() && state == Apply(old(state), BeginShutdown(t))
      ensures mustWait <==> state.At(t).Waiting?
      ensures mustWait ==> owner == state.At(t).owner
      ensures plugin <==> state.At(t).Stopping?
      ensures closed && (mustWait <==> InCall(old(state)) != {})
      ensures plugin <==> InCall(old(state)) == {} && !old(closed) && old(inner)
    {
      BeginningWaitsForCalls(state, t);
      StepKeepsInvariant(state, BeginShutdown(t));
      state := Apply(state, BeginShutdown(t));
      owner := !closed;
      closed := true;
      mustWait, plugin := AfterLoopTest(owner);
    }

    /** Shutdown back in the lock after a wake-up. */
    method ResumeShutdown(ghost t: Thread, owner: bool) returns (mustWait: bool, plugin: bool)
      requires Valid() && state.At(t).Woken? && state.At(t).owner == owner
      modifies this
      ensures Valid() && state == Apply(old(state), Resume(t))
      ensures mustWait <==> state.At(t).Waiting?
      ensures plugin <==> state.At(t).Stopping?
      ensures !mustWait && (plugin <==> owner && old(inner))
    {
      StepKeepsInvariant(state, Resume(t));
      state := Apply(state, Resume(t));
      mustWait, plugin := AfterLoopTest(owner);
    }

    /** The wait loop's test, and past it the taking of the plugin. */
    method AfterLoopTest(owner: bool) returns (mustWait: bool, plugin: bool)
      modifies `inner
      ensures mustWait <==> calls > 0
      ensures plugin <==> calls <= 0 && owner && old(inner)
      ensures inner == if calls <= 0 && owner then false else old(inner)
    {
      if calls > 0 { return true, false; }
      if !owner { return false, false; }
      plugin := inner;
      inner := false;
      mustWait := false;
    }

    /** The plugin's own Shutdown is over, and with it the guard's. */
    method FinishShutdown(ghost t: Thread)
      requires Valid() && state.At(t).Stopping?
      modifies `state
      ensures Valid() && state == Apply(old(state), EndShutdown(t))
      ensures state.shutdownReturned && InCall(state) == {}
    {
      StepKeepsInvariant(state, EndShutdown(t));
      state := Apply(state, EndShutdown(t));
    }
  }
}
