/**
  Enqueueing a usage record takes the lock twice: once to publish it to the subscribers, and, if there were none, once
  more to append it to the queue. Every other operation may come in between; every interleaving is a run.
 */
module Enqueuing {
  import opened Prelude
  import F = Fifo
  import S = Subscribers

  /**
    The queue, the subscribers, and the records between their two locked sections. The rest is history: what each half
    was asked to do, and what was accepted, delivered to subscribers, and published apart from records.
   */
  datatype World = World(
    queue: seq<F.Item>,
    subs: S.State,
    pending: multiset<Bytes>,
    queueOps: seq<F.Op>,
    subSteps: seq<S.Step>,
    accepted: multiset<Bytes>,
    delivered: multiset<Bytes>,
    notices: multiset<Bytes>)
  {
    function Queue(op: F.Op): World { this.(queue := F.After(queue, op), queueOps := queueOps + [op]) }
    function Subs(step: S.Step): World { this.(subs := S.Apply(subs, step), subSteps := subSteps + [step]) }
  }

  datatype Step =
    | Begin(payload: Bytes)
    | Finish(payload: Bytes, now: int, window: int)
    | Notify(payload: Bytes)
    | Pop(now: int, window: int, count: nat)
    | Clear
    | Subscribe(capacity: nat, first: seq<Bytes>)
    | Unsubscribe(subscription: nat)
    | CloseRemoved(chan: nat)
    | Receive(chan: nat)

  const INIT := World([], S.INIT, multiset{}, [], [], multiset{}, multiset{}, multiset{})

  /** Steps that are not possible change nothing. */
  function Apply(w: World, step: Step): World {
    match step
    case Begin(p) =>
      if p == [] then w
      else if w.subs.table == map[] then w.(pending := w.pending + multiset{p}, accepted := w.accepted + multiset{p})
      else w.Subs(S.Publish(p)).(delivered := w.delivered + multiset{p}, accepted := w.accepted + multiset{p})
    case Finish(p, now, window) =>
      if p !in w.pending then w else w.Queue(F.Enqueue(now, window, p)).(pending := w.pending - multiset{p})
    case Notify(p) =>
      if w.subs.table == map[] then w else w.Subs(S.Publish(p)).(notices := w.notices + multiset{p})
    case Pop(now, window, count) => w.Queue(F.Pop(now, window, count))
    case Clear => w.Queue(F.Clear).Subs(S.ClearTable)
    case Subscribe(capacity, first) => w.Subs(S.Subscribe(capacity, first))
    case Unsubscribe(k) => w.Subs(S.Unsubscribe(k))
    case CloseRemoved(k) => w.Subs(S.CloseRemoved(k))
    case Receive(k) => w.Subs(S.Receive(k))
  }

  function RunFrom(w: World, steps: seq<Step>): World {
    if steps == [] then w else Apply(RunFrom(w, steps[..|steps| - 1]), steps[|steps| - 1])
  }

  function Run(steps: seq<Step>): World { RunFrom(INIT, steps) }

  // ---------------------------------------------------------------- both halves are runs of their own

  ghost predicate Follows(w: World) { w.queue == F.Run(w.queueOps) && w.subs == S.Run(w.subSteps) }

  lemma QueueFollows(w: World, op: F.Op)
    requires Follows(w)
    ensures Follows(w.Queue(op))
  {
    assert F.Front(w.queueOps + [op]) == w.queueOps;
  }

  lemma SubsFollow(w: World, step: S.Step)
    requires Follows(w)
    ensures Follows(w.Subs(step))
  {
    assert (w.subSteps + [step])[..|w.subSteps|] == w.subSteps;
  }

  lemma StepFollows(w: World, step: Step)
    requires Follows(w)
    ensures Follows(Apply(w, step))
  {
    match step
    case Begin(p) => SubsFollow(w, S.Publish(p));
    case Finish(p, now, window) => QueueFollows(w, F.Enqueue(now, window, p));
    case Notify(p) => SubsFollow(w, S.Publish(p));
    case Pop(now, window, count) => QueueFollows(w, F.Pop(now, window, count));
    case Clear =>
      QueueFollows(w, F.Clear);
      SubsFollow(w.Queue(F.Clear), S.ClearTable);
    case Subscribe(capacity, first) => SubsFollow(w, S.Subscribe(capacity, first));
    case Unsubscribe(k) => SubsFollow(w, S.Unsubscribe(k));
    case CloseRemoved(k) => SubsFollow(w, S.CloseRemoved(k));
    case Receive(k) => SubsFollow(w, S.Receive(k));
  }

  /** So everything proved of all runs of the queue, and of all runs of the subscribers, holds in every interleaving. */
  lemma {:induction false} RunFollows(steps: seq<Step>)
    ensures Follows(Run(steps))
  {
    if steps != [] {
      RunFollows(steps[..|steps| - 1]);
      StepFollows(Run(steps[..|steps| - 1]), steps[|steps| - 1]);
    }
  }

  // ---------------------------------------------------------------- no record is lost or taken twice

  /** The payloads of all records ever put into the queue. */
  ghost function Kept(ops: seq<F.Op>): multiset<Bytes> { multiset(F.Payloads(F.Added(ops))) }

  ghost predicate Accounted(w: World) {
    && w.accepted == w.delivered + w.pending + Kept(w.queueOps)
    && multiset(w.subs.published) == w.delivered + w.notices
  }

  lemma KeptOneMore(ops: seq<F.Op>, op: F.Op)
    ensures Kept(ops + [op]) == Kept(ops) + if op.Enqueue? then multiset{op.payload} else multiset{}
  {
    assert F.Front(ops + [op]) == ops;
    assert F.Payloads(F.Added(ops) + F.Arrivals(op)) == F.Payloads(F.Added(ops)) + F.Payloads(F.Arrivals(op));
    assert F.Payloads(F.Arrivals(op)) == if op.Enqueue? then [op.payload] else [];
  }

  lemma PublishedOneMore(s: S.State, step: S.Step)
    ensures multiset(S.Apply(s, step).published)
            == multiset(s.published) + if step.Publish? then multiset{step.payload} else multiset{}
  {}

  lemma QueueAccounts(w: World, op: F.Op)
    requires Accounted(w) && !op.Enqueue?
    ensures Accounted(w.Queue(op))
  {
    KeptOneMore(w.queueOps, op);
  }

  lemma SubsAccount(w: World, step: S.Step)
    requires Accounted(w) && !step.Publish?
    ensures Accounted(w.Subs(step))
  {
    PublishedOneMore(w.subs, step);
  }

  lemma BeginAccounts(w: World, p: Bytes)
    requires Accounted(w)
    ensures Accounted(Apply(w, Begin(p)))
  {
    PublishedOneMore(w.subs, S.Publish(p));
  }

  lemma NotifyAccounts(w: World, p: Bytes)
    requires Accounted(w)
    ensures Accounted(Apply(w, Notify(p)))
  {
    PublishedOneMore(w.subs, S.Publish(p));
  }

  lemma FinishAccounts(w: World, p: Bytes, now: int, window: int)
    requires Accounted(w) && p in w.pending
    ensures Accounted(Apply(w, Finish(p, now, window)))
  {
    KeptOneMore(w.queueOps, F.Enqueue(now, window, p));
    MoveOne(w.delivered, w.pending, Kept(w.queueOps), p);
  }

  lemma MoveOne<T>(a: multiset<T>, b: multiset<T>, c: multiset<T>, x: T)
    requires x in b
    ensures a + (b - multiset{x}) + (c + multiset{x}) == a + b + c
  {}

  lemma StepAccounts(w: World, step: Step)
    requires Accounted(w)
    ensures Accounted(Apply(w, step))
  {
    match step
    case Begin(p) => BeginAccounts(w, p);
    case Finish(p, now, window) => if p in w.pending { FinishAccounts(w, p, now, window); }
    case Notify(p) => NotifyAccounts(w, p);
    case Pop(now, window, count) => QueueAccounts(w, F.Pop(now, window, count));
    case Clear =>
      QueueAccounts(w, F.Clear);
      SubsAccount(w.Queue(F.Clear), S.ClearTable);
    case Subscribe(capacity, first) => SubsAccount(w, S.Subscribe(capacity, first));
    case Unsubscribe(k) => SubsAccount(w, S.Unsubscribe(k));
    case CloseRemoved(k) => SubsAccount(w, S.CloseRemoved(k));
    case Receive(k) => SubsAccount(w, S.Receive(k));
  }

  lemma {:induction false} RunAccounts(steps: seq<Step>)
    ensures Accounted(Run(steps))
  {
    if steps != [] {
      RunAccounts(steps[..|steps| - 1]);
      StepAccounts(Run(steps[..|steps| - 1]), steps[|steps| - 1]);
    }
  }

  /**
    In every interleaving each accepted record is in exactly one place: published to the subscribers, between its two
    locked sections, gone from the queue with one fate, or still in it.
   */
  lemma EveryRecordIsSomewhere(steps: seq<Step>)
    ensures var w := Run(steps);
            && multiset(w.subs.published) == w.delivered + w.notices
            && w.accepted == w.delivered + w.pending
                          + multiset(F.Payloads(F.Items(F.Gone(w.queueOps)))) + multiset(F.Payloads(w.queue))
  {
    RunFollows(steps);
    RunAccounts(steps);
    KeptIsGoneOrQueued(Run(steps).queueOps);
  }

  lemma KeptIsGoneOrQueued(ops: seq<F.Op>)
    ensures Kept(ops) == multiset(F.Payloads(F.Items(F.Gone(ops)))) + multiset(F.Payloads(F.Run(ops)))
  {
    F.RunConserves(ops);
    PayloadsOfBoth(F.Items(F.Gone(ops)), F.Run(ops));
  }

  lemma PayloadsOfBoth(a: seq<F.Item>, b: seq<F.Item>)
    ensures multiset(F.Payloads(a + b)) == multiset(F.Payloads(a)) + multiset(F.Payloads(b))
  {
    assert F.Payloads(a + b) == F.Payloads(a) + F.Payloads(b);
  }

  /** The queue is in order of time as long as the second locked sections are. */
  lemma OrderedQueueIsSorted(steps: seq<Step>)
    requires F.Sorted(F.Added(Run(steps).queueOps))
    ensures F.Sorted(Run(steps).queue)
  {
    RunFollows(steps);
    F.RunStaysSorted(Run(steps).queueOps);
  }

  // ---------------------------------------------------------------- subscribing in between

  /** Later on, the subscribers known at first are among those of then: nobody who has left comes back. */
  ghost predicate NobodyBack(first: S.State, later: S.State) {
    && |first.chans| <= |later.chans|
    && forall k: nat | k < |first.chans| && S.Subscribed(later, k) :: S.Subscribed(first, k)
  }

  lemma StepKeepsSubscribers(w: World, step: Step)
    requires S.Invariant(w.subs)
    ensures S.Invariant(Apply(w, step).subs) && NobodyBack(w.subs, Apply(w, step).subs)
  {
    match step
    case Begin(p) => SubscribersKept(w.subs, S.Publish(p));
    case Finish(_, _, _) =>
    case Notify(p) => SubscribersKept(w.subs, S.Publish(p));
    case Pop(_, _, _) =>
    case Clear => SubscribersKept(w.subs, S.ClearTable);
    case Subscribe(capacity, first) => SubscribersKept(w.subs, S.Subscribe(capacity, first));
    case Unsubscribe(k) => SubscribersKept(w.subs, S.Unsubscribe(k));
    case CloseRemoved(k) => SubscribersKept(w.subs, S.CloseRemoved(k));
    case Receive(k) => SubscribersKept(w.subs, S.Receive(k));
  }

  lemma SubscribersKept(s: S.State, step: S.Step)
    requires S.Invariant(s)
    ensures S.Invariant(S.Apply(s, step)) && NobodyBack(s, S.Apply(s, step))
  {
    S.StepKeepsInvariant(s, step);
  }

  lemma NobodyBackAgain(first: S.State, later: S.State, last: S.State)
    requires NobodyBack(first, later) && NobodyBack(later, last)
    ensures NobodyBack(first, last)
  {}

  lemma {:induction false} NobodyReturns(w: World, steps: seq<Step>)
    requires S.Invariant(w.subs)
    ensures S.Invariant(RunFrom(w, steps).subs) && NobodyBack(w.subs, RunFrom(w, steps).subs)
  {
    if steps != [] {
      var front := steps[..|steps| - 1];
      NobodyReturns(w, front);
      StepKeepsSubscribers(RunFrom(w, front), steps[|steps| - 1]);
      NobodyBackAgain(w.subs, RunFrom(w, front).subs, RunFrom(w, steps).subs);
    }
  }

  /** From a moment without subscribers on, there is one if and only if one that came later is still subscribed. */
  lemma SubscriberIffNewcomer(w: World, steps: seq<Step>)
    requires S.Invariant(w.subs) && w.subs.table == map[]
    ensures RunFrom(w, steps).subs.table != map[]
            <==> exists k: nat :: |w.subs.chans| <= k && S.Subscribed(RunFrom(w, steps).subs, k)
  {
    NobodyReturns(w, steps);
    var s := RunFrom(w, steps).subs;
    if s.table != map[] {
      var id :| id in s.table;
      assert s.ids[id - 1] == id && S.Subscribed(s, id - 1);
    }
  }

  /**
    A record enters the queue beside a subscriber if and only if one that subscribed after the record's first locked
    section is still subscribed at its second.
   */
  lemma QueuedBesideSubscriberIff(before: seq<Step>, p: Bytes, between: seq<Step>, now: int, window: int)
    requires p != [] && Run(before).subs.table == map[]
    requires p in RunFrom(Apply(Run(before), Begin(p)), between).pending
    ensures var start := Run(before);
            var end := Apply(RunFrom(Apply(start, Begin(p)), between), Finish(p, now, window));
            && end.queue != [] && end.queue[|end.queue| - 1] == F.Item(now, p)
            && (end.subs.table != map[] <==> exists k: nat :: |start.subs.chans| <= k && S.Subscribed(end.subs, k))
  {
    RunFollows(before);
    S.RunKeepsInvariant(Run(before).subSteps);
    SubscriberIffNewcomer(Apply(Run(before), Begin(p)), between);
  }

  lemma StepKeepsTableEmpty(w: World, step: Step)
    requires w.subs.table == map[] && !step.Subscribe?
    ensures Apply(w, step).subs.table == map[]
  {}

  /** In particular there is none as long as nobody subscribes. */
  lemma {:induction false} TableStaysEmpty(w: World, steps: seq<Step>)
    requires w.subs.table == map[] && forall i | 0 <= i < |steps| :: !steps[i].Subscribe?
    ensures RunFrom(w, steps).subs.table == map[]
  {
    if steps != [] {
      TableStaysEmpty(w, steps[..|steps| - 1]);
      StepKeepsTableEmpty(RunFrom(w, steps[..|steps| - 1]), steps[|steps| - 1]);
    }
  }

  lemma ThreeSteps(a: Step, b: Step, c: Step)
    ensures Run([a, b, c]) == Apply(Apply(Apply(INIT, a), b), c)
  {
    assert [a, b, c][..2] == [a, b] && [a, b][..1] == [a] && [a][..0] == [];
    assert RunFrom(INIT, [a]) == Apply(INIT, a);
    assert RunFrom(INIT, [a, b]) == Apply(Apply(INIT, a), b);
  }

  /** It happens: here the record is queued although there is a subscriber, who never gets it. */
  lemma SubscriberCanMissARecord()
    ensures var w := Run([Begin([1]), Subscribe(1, []), Finish([1], 0, 60)]);
            F.Payloads(w.queue) == [[1]] && S.Subscribed(w.subs, 0) && w.subs.chans[0].Sent() == []
  {
    ThreeSteps(Begin([1]), Subscribe(1, []), Finish([1], 0, 60));
  }

  // ---------------------------------------------------------------- clearing in between

  predicate NoneBegins(steps: seq<Step>) { forall i | 0 <= i < |steps| :: !steps[i].Begin? }

  /** All records that are in the queue, were in it, or are still to enter it. */
  ghost function KeptOrPending(w: World): multiset<Bytes> { Kept(w.queueOps) + w.pending }

  lemma FinishMovesPending(w: World, p: Bytes, now: int, window: int)
    requires p in w.pending
    ensures KeptOrPending(Apply(w, Finish(p, now, window))) == KeptOrPending(w)
  {
    KeptOneMore(w.queueOps, F.Enqueue(now, window, p));
    MoveOne(multiset{}, w.pending, Kept(w.queueOps), p);
  }

  lemma QueueMovesNothing(w: World, op: F.Op)
    requires !op.Enqueue?
    ensures KeptOrPending(w.Queue(op)) == KeptOrPending(w)
  {
    KeptOneMore(w.queueOps, op);
  }

  lemma SubsMoveNothing(w: World, step: S.Step)
    ensures KeptOrPending(w.Subs(step)) == KeptOrPending(w)
  {}

  lemma NotifyMovesNothing(w: World, p: Bytes)
    ensures KeptOrPending(Apply(w, Notify(p))) == KeptOrPending(w)
  {}

  lemma StepMovesPending(w: World, step: Step)
    requires !step.Begin?
    ensures KeptOrPending(Apply(w, step)) == KeptOrPending(w)
  {
    match step
    case Finish(p, now, window) =>
      if p in w.pending { FinishMovesPending(w, p, now, window); } else { assert Apply(w, step) == w; }
    case Notify(p) => NotifyMovesNothing(w, p);
    case Pop(now, window, count) =>
      assert Apply(w, step) == w.Queue(F.Pop(now, window, count));
      QueueMovesNothing(w, F.Pop(now, window, count));
    case Clear =>
      assert Apply(w, step) == w.Queue(F.Clear).Subs(S.ClearTable);
      QueueMovesNothing(w, F.Clear);
      SubsMoveNothing(w.Queue(F.Clear), S.ClearTable);
    case Subscribe(capacity, first) =>
      assert Apply(w, step) == w.Subs(S.Subscribe(capacity, first));
      SubsMoveNothing(w, S.Subscribe(capacity, first));
    case Unsubscribe(k) =>
      assert Apply(w, step) == w.Subs(S.Unsubscribe(k));
      SubsMoveNothing(w, S.Unsubscribe(k));
    case CloseRemoved(k) =>
      assert Apply(w, step) == w.Subs(S.CloseRemoved(k));
      SubsMoveNothing(w, S.CloseRemoved(k));
    case Receive(k) =>
      assert Apply(w, step) == w.Subs(S.Receive(k));
      SubsMoveNothing(w, S.Receive(k));
  }

  /** While no record is newly accepted, what enters the queue is exactly what ceases to be pending. */
  lemma {:induction false} OnlyPendingRecordsEnter(w: World, steps: seq<Step>)
    requires NoneBegins(steps)
    ensures Kept(RunFrom(w, steps).queueOps) + RunFrom(w, steps).pending == Kept(w.queueOps) + w.pending
  {
    if steps != [] {
      OnlyPendingRecordsEnter(w, steps[..|steps| - 1]);
      StepMovesPending(RunFrom(w, steps[..|steps| - 1]), steps[|steps| - 1]);
    }
  }

  /** Without pending records an empty queue stays empty as long as none is newly accepted. */
  lemma {:induction false} StaysEmpty(w: World, steps: seq<Step>)
    requires w.queue == [] && w.pending == multiset{} && NoneBegins(steps)
    ensures RunFrom(w, steps).queue == [] && RunFrom(w, steps).pending == multiset{}
  {
    if steps != [] { StaysEmpty(w, steps[..|steps| - 1]); }
  }

  /** A cleared queue stays empty until a record is newly accepted if and only if none was pending at the clearing. */
  lemma ClearedStaysEmptyIff(w: World)
    ensures (forall steps | NoneBegins(steps) :: RunFrom(Apply(w, Clear), steps).queue == [])
            <==> w.pending == multiset{}
  {
    var cleared := Apply(w, Clear);
    if w.pending == multiset{} {
      forall steps | NoneBegins(steps) ensures RunFrom(cleared, steps).queue == [] { StaysEmpty(cleared, steps); }
    } else {
      var p :| p in w.pending;
      var steps := [Finish(p, 0, 60)];
      PendingRecordEnters(w, p, 0, 60);
      OneStep(cleared, steps[0]);
      assert NoneBegins(steps) && RunFrom(cleared, steps).queue != [];
    }
  }

  lemma OneStep(w: World, step: Step)
    ensures RunFrom(w, [step]) == Apply(w, step)
  {
    assert [step][..0] == [];
  }

  /** Each record that was pending can still enter. */
  lemma PendingRecordEnters(w: World, p: Bytes, now: int, window: int)
    ensures F.Item(now, p) in Apply(Apply(w, Clear), Finish(p, now, window)).queue <==> p in w.pending
  {}

  /** It happens: here the record is accepted, then everything is cleared, and then the record is queued. */
  lemma RecordCanOutliveClearing()
    ensures F.Payloads(Run([Begin([1]), Clear, Finish([1], 0, 60)]).queue) == [[1]]
  {
    ThreeSteps(Begin([1]), Clear, Finish([1], 0, 60));
  }
}
