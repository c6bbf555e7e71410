/**
  The usage queue as a plain first-in first-out sequence with time-based expiry, and the fate of every item over
  any run of operations. Times are integer nanoseconds.
 */
module Fifo {
  import opened Prelude

  const DEFAULT_RETENTION_SECONDS: int := 60

  const NANOSECONDS: int := 1_000_000_000

  datatype Item = Item(enqueuedAt: int, payload: Bytes)

  function Cutoff(now: int, windowSeconds: int): int {
    now - (if windowSeconds <= 0 then DEFAULT_RETENTION_SECONDS else windowSeconds) * NANOSECONDS
  }

  /** How many items at the front are older than the cutoff; the first younger one ends the count. */
  function StaleCount(q: seq<Item>, cutoff: int): (n: nat)
    ensures n <= |q|
  {
    if q != [] && q[0].enqueuedAt < cutoff then 1 + StaleCount(q[1..], cutoff) else 0
  }

  lemma {:induction false} StaleCountIs(q: seq<Item>, cutoff: int, n: nat)
    requires n <= |q|
    requires forall i | 0 <= i < n :: q[i].enqueuedAt < cutoff
    requires n < |q| ==> q[n].enqueuedAt >= cutoff
    ensures StaleCount(q, cutoff) == n
  {
    if n > 0 {
      forall i | 0 <= i < n - 1 ensures q[1..][i].enqueuedAt < cutoff { assert q[1..][i] == q[i + 1]; }
      StaleCountIs(q[1..], cutoff, n - 1);
    }
  }

  lemma {:induction false} StaleOnesAreOld(q: seq<Item>, cutoff: int)
    ensures forall i | 0 <= i < StaleCount(q, cutoff) :: q[i].enqueuedAt < cutoff
    ensures StaleCount(q, cutoff) < |q| ==> q[StaleCount(q, cutoff)].enqueuedAt >= cutoff
  {
    if q != [] && q[0].enqueuedAt < cutoff {
      StaleOnesAreOld(q[1..], cutoff);
      forall i | 0 <= i < StaleCount(q, cutoff) ensures q[i].enqueuedAt < cutoff {
        if i > 0 { assert q[i] == q[1..][i - 1]; }
      }
    }
  }

  // ---------------------------------------------------------------- operations

  datatype Op =
    | Enqueue(now: int, window: int, payload: Bytes)
    | Pop(now: int, window: int, count: nat)
    | Clear

  datatype Fate = Delivered | Expired | Cleared

  function Young(q: seq<Item>, now: int, window: int): seq<Item> { q[StaleCount(q, Cutoff(now, window))..] }

  function Popped(q: seq<Item>, op: Op): nat
    requires op.Pop?
  {
    var young := Young(q, op.now, op.window);
    if op.count > |young| then |young| else op.count
  }

  /** The queue after one operation. */
  function After(q: seq<Item>, op: Op): seq<Item> {
    match op
    case Enqueue(now, window, payload) => Young(q, now, window) + [Item(now, payload)]
    case Pop(now, window, count) => Young(q, now, window)[Popped(q, op)..]
    case Clear => []
  }

  /** What one operation hands to its caller. */
  function Output(q: seq<Item>, op: Op): seq<Bytes> {
    if op.Pop? then Payloads(Young(q, op.now, op.window)[..Popped(q, op)]) else []
  }

  function Payloads(items: seq<Item>): seq<Bytes> {
    seq(|items|, i requires 0 <= i < |items| => items[i].payload)
  }

  /** n is how many items at the front are older than the window, which is a minute unless one is set. */
  predicate StaleFront(q: seq<Item>, now: int, window: int, n: nat) {
    && n <= |q|
    && (forall i | 0 <= i < n :: q[i].enqueuedAt < now - (if window > 0 then window else 60) * 1_000_000_000)
    && (n < |q| ==> q[n].enqueuedAt >= now - (if window > 0 then window else 60) * 1_000_000_000)
  }

  /** A pop delivers the payloads behind the stale front, as many as there are but no more than asked for. */
  lemma PopDelivers(q: seq<Item>, now: int, window: int, count: nat, n: nat)
    requires StaleFront(q, now, window, n)
    ensures var out, k := Output(q, Pop(now, window, count)), if count < |q| - n then count else |q| - n;
            && |out| == k && (forall i | 0 <= i < k :: out[i] == q[n + i].payload)
            && After(q, Pop(now, window, count)) == q[n + k..]
  {
    StaleCountIs(q, Cutoff(now, window), n);
  }

  /** An enqueueing drops the stale front and puts the new item last; a clearing leaves nothing. */
  lemma EnqueueAppends(q: seq<Item>, now: int, window: int, payload: Bytes, n: nat)
    requires StaleFront(q, now, window, n)
    ensures After(q, Enqueue(now, window, payload)) == q[n..] + [Item(now, payload)]
    ensures After(q, Clear) == [] && Output(q, Enqueue(now, window, payload)) == [] == Output(q, Clear)
  {
    StaleCountIs(q, Cutoff(now, window), n);
  }

  // ---------------------------------------------------------------- the fate of every item

  datatype Departure = Departure(item: Item, fate: Fate)

  function Depart(items: seq<Item>, fate: Fate): seq<Departure> {
    seq(|items|, i requires 0 <= i < |items| => Departure(items[i], fate))
  }

  /** The items one operation takes out of the queue, in order, each with its one fate. */
  function Departures(q: seq<Item>, op: Op): seq<Departure> {
    match op
    case Enqueue(now, window, payload) => Depart(q[..StaleCount(q, Cutoff(now, window))], Expired)
    case Pop(now, window, count) =>
      Depart(q[..StaleCount(q, Cutoff(now, window))], Expired)
      + Depart(Young(q, now, window)[..Popped(q, op)], Delivered)
    case Clear => Depart(q, Cleared)
  }

  function Items(gone: seq<Departure>): seq<Item> {
    seq(|gone|, i requires 0 <= i < |gone| => gone[i].item)
  }

  function Front<T>(s: seq<T>): seq<T>
    requires s != []
  {
    s[..|s| - 1]
  }

  function Last<T>(s: seq<T>): T
    requires s != []
  {
    s[|s| - 1]
  }

  function Run(ops: seq<Op>): seq<Item> {
    if ops == [] then [] else After(Run(Front(ops)), Last(ops))
  }

  /** Everything that ever left the queue during a run, in the order of leaving. */
  function Gone(ops: seq<Op>): seq<Departure> {
    if ops == [] then [] else Gone(Front(ops)) + Departures(Run(Front(ops)), Last(ops))
  }

  /** Everything callers were ever handed during a run. */
  function Outputs(ops: seq<Op>): seq<Bytes> {
    if ops == [] then [] else Outputs(Front(ops)) + Output(Run(Front(ops)), Last(ops))
  }

  function Arrivals(op: Op): seq<Item> {
    if op.Enqueue? then [Item(op.now, op.payload)] else []
  }

  /** Every item ever added during a run. */
  function Added(ops: seq<Op>): seq<Item> {
    if ops == [] then [] else Added(Front(ops)) + Arrivals(Last(ops))
  }

  /** One operation neither loses, duplicates nor reorders: what left, then what stays, is what was there and came. */
  lemma StepConserves(q: seq<Item>, op: Op)
    ensures Items(Departures(q, op)) + After(q, op) == q + Arrivals(op)
  {
    match op
    case Enqueue(now, window, payload) =>
    case Pop(now, window, count) =>
      var n := StaleCount(q, Cutoff(now, window));
      assert Items(Departures(q, op)) == q[..n] + q[n..][..Popped(q, op)];
    case Clear =>
  }

  lemma ItemsAppend(a: seq<Departure>, b: seq<Departure>)
    ensures Items(a + b) == Items(a) + Items(b)
  {}

  /**
    Over any run, the departed items followed by the queued ones are exactly the added items in the order of adding.
    Every added item is thus either still queued or departed once, with one fate, and nothing is reordered.
   */
  lemma {:induction false} RunConserves(ops: seq<Op>)
    ensures Items(Gone(ops)) + Run(ops) == Added(ops)
  {
    if ops != [] {
      var q, op := Run(Front(ops)), Last(ops);
      RunConserves(Front(ops));
      StepConserves(q, op);
      ItemsAppend(Gone(Front(ops)), Departures(q, op));
      Regroup(Items(Gone(Front(ops))), Items(Departures(q, op)), After(q, op), q, Arrivals(op));
    }
  }

  lemma Regroup<T>(gone: seq<T>, going: seq<T>, staying: seq<T>, there: seq<T>, coming: seq<T>)
    requires going + staying == there + coming
    ensures gone + going + staying == gone + there + coming
  {
    assert gone + going + staying == gone + (going + staying);
  }

  function DeliveredPayloads(gone: seq<Departure>): seq<Bytes> {
    if gone == [] then []
    else if Last(gone).fate == Delivered then DeliveredPayloads(Front(gone)) + [Last(gone).item.payload]
    else DeliveredPayloads(Front(gone))
  }

  lemma {:induction false} DeliveredAppend(a: seq<Departure>, b: seq<Departure>)
    ensures DeliveredPayloads(a + b) == DeliveredPayloads(a) + DeliveredPayloads(b)
  {
    if b == [] {
      assert a + b == a;
    } else {
      DeliveredAppend(a, Front(b));
      assert Front(a + b) == a + Front(b);
    }
  }

  lemma {:induction false} DepartDelivers(items: seq<Item>, fate: Fate)
    ensures DeliveredPayloads(Depart(items, fate)) == if fate == Delivered then Payloads(items) else []
  {
    if items != [] {
      DepartDelivers(Front(items), fate);
      assert Front(Depart(items, fate)) == Depart(Front(items), fate);
      assert fate == Delivered ==> Payloads(items) == Payloads(Front(items)) + [Last(items).payload];
    }
  }

  /** What callers were handed over a run is exactly the payloads of the delivered items, each once, in order. */
  lemma {:induction false} OutputsAreDeliveries(ops: seq<Op>)
    ensures Outputs(ops) == DeliveredPayloads(Gone(ops))
  {
    if ops != [] {
      var q, op := Run(Front(ops)), Last(ops);
      OutputsAreDeliveries(Front(ops));
      DeliveredAppend(Gone(Front(ops)), Departures(q, op));
      match op
      case Enqueue(now, window, payload) => DepartDelivers(q[..StaleCount(q, Cutoff(now, window))], Expired);
      case Pop(now, window, count) =>
        var stale, out := q[..StaleCount(q, Cutoff(now, window))], Young(q, now, window)[..Popped(q, op)];
        DeliveredAppend(Depart(stale, Expired), Depart(out, Delivered));
        DepartDelivers(stale, Expired);
        DepartDelivers(out, Delivered);
      case Clear => DepartDelivers(q, Cleared);
    }
  }

  // ---------------------------------------------------------------- when exactly the old items expire

  predicate Sorted(q: seq<Item>) { forall i, j | 0 <= i < j < |q| :: q[i].enqueuedAt <= q[j].enqueuedAt }

  /** No item older than the cutoff waits behind one that is not. */
  predicate NoneBehindYounger(q: seq<Item>, cutoff: int) {
    forall i, j | 0 <= i < j < |q| && q[j].enqueuedAt < cutoff :: q[i].enqueuedAt < cutoff
  }

  /** The operation expires the item at position i. */
  predicate ExpiresAt(q: seq<Item>, op: Op, i: nat)
    requires i < |q|
  {
    i < |Departures(q, op)| && Departures(q, op)[i] == Departure(q[i], Expired)
  }

  /** The operation expires the items older than its cutoff, wherever they are, and no others. */
  ghost predicate ExpiresExactly(q: seq<Item>, op: Op)
    requires !op.Clear?
  {
    forall i | 0 <= i < |q| :: ExpiresAt(q, op, i) <==> q[i].enqueuedAt < Cutoff(op.now, op.window)
  }

  lemma ExpiredArePruned(q: seq<Item>, op: Op, i: nat)
    requires !op.Clear? && i < |q|
    ensures ExpiresAt(q, op, i) <==> i < StaleCount(q, Cutoff(op.now, op.window))
  {}

  /** Pruning stops at the first younger item; it is exact if and only if no older one waits behind that. */
  lemma ExpiryIsExactIff(q: seq<Item>, cutoff: int)
    ensures (forall i | 0 <= i < |q| :: i < StaleCount(q, cutoff) <==> q[i].enqueuedAt < cutoff)
            <==> NoneBehindYounger(q, cutoff)
  {
    StaleOnesAreOld(q, cutoff);
    var n := StaleCount(q, cutoff);
    if NoneBehindYounger(q, cutoff) {
      forall i | n <= i < |q| ensures q[i].enqueuedAt >= cutoff { assert q[n].enqueuedAt >= cutoff; }
    }
  }

  /** On a queue in order of time it always is. */
  lemma SortedExpiryIsExact(q: seq<Item>, cutoff: int)
    requires Sorted(q)
    ensures forall i | 0 <= i < |q| :: i < StaleCount(q, cutoff) <==> q[i].enqueuedAt < cutoff
  {
    ExpiryIsExactIff(q, cutoff);
  }

  /** After any run, the next operation expires exactly the old items if and only if none waits behind a younger one. */
  lemma RunExpiresExactlyIff(ops: seq<Op>, op: Op)
    requires !op.Clear?
    ensures ExpiresExactly(Run(ops), op) <==> NoneBehindYounger(Run(ops), Cutoff(op.now, op.window))
  {
    var q := Run(ops);
    forall i | 0 <= i < |q| ensures ExpiresAt(q, op, i) <==> i < StaleCount(q, Cutoff(op.now, op.window)) {
      ExpiredArePruned(q, op, i);
    }
    ExpiryIsExactIff(q, Cutoff(op.now, op.window));
  }

  /** The next operation expires exactly the old items at whatever time if and only if the queue is in order of time. */
  lemma EveryExpiryIsExactIffSorted(ops: seq<Op>)
    ensures (forall op: Op | !op.Clear? :: ExpiresExactly(Run(ops), op)) <==> Sorted(Run(ops))
  {
    var q := Run(ops);
    forall op: Op | !op.Clear? ensures ExpiresExactly(q, op) <==> NoneBehindYounger(q, Cutoff(op.now, op.window)) {
      RunExpiresExactlyIff(ops, op);
    }
    if !Sorted(q) {
      var i, j :| 0 <= i < j < |q| && q[i].enqueuedAt > q[j].enqueuedAt;
      var op := Pop(q[i].enqueuedAt + NANOSECONDS, 1, 0);
      assert Cutoff(op.now, op.window) == q[i].enqueuedAt;
      assert !ExpiresExactly(q, op);
    }
  }

  // ---------------------------------------------------------------- the order of the locked sections

  /** What is queued is the last part of what was added. */
  lemma RunIsLastOfAdded(ops: seq<Op>)
    ensures |Run(ops)| <= |Added(ops)| && Run(ops) == Added(ops)[|Added(ops)| - |Run(ops)|..]
  {
    RunConserves(ops);
  }

  /** If the items were added under the lock in the order of their times, the queue is in that order. */
  lemma RunStaysSorted(ops: seq<Op>)
    requires Sorted(Added(ops))
    ensures Sorted(Run(ops))
  {
    RunIsLastOfAdded(ops);
    var added, skipped := Added(ops), |Added(ops)| - |Run(ops)|;
    forall i, j | 0 <= i < j < |Run(ops)| ensures Run(ops)[i].enqueuedAt <= Run(ops)[j].enqueuedAt {
      assert Run(ops)[i] == added[skipped + i] && Run(ops)[j] == added[skipped + j];
    }
  }

  /** So if the locked sections come in the order of their times, every operation expires exactly the old items. */
  lemma OrderedRunExpiresExactly(ops: seq<Op>, op: Op)
    requires !op.Clear? && Sorted(Added(ops))
    ensures ExpiresExactly(Run(ops), op)
  {
    RunStaysSorted(ops);
    EveryExpiryIsExactIffSorted(ops);
  }

  // A caller reads the clock before it takes the lock, so even a clock that only runs forward does not give this order:
  // the later reader of two may be the first to get the lock.

  const OVERTAKEN: seq<Op> := [Enqueue(2, 60, [1]), Enqueue(1, 60, [2])]

  /** The younger item got the lock first, and a cutoff between the two leaves the old one queued behind it. */
  lemma OldItemCanOutliveItsCutoff()
    ensures Run(OVERTAKEN) == [Item(2, [1]), Item(1, [2])]
    ensures var op := Pop(2 + NANOSECONDS, 1, 0);
            && Cutoff(op.now, op.window) == 2 && !ExpiresAt(Run(OVERTAKEN), op, 1)
            && After(Run(OVERTAKEN), op) == Run(OVERTAKEN)
  {
    assert Front(OVERTAKEN) == [Enqueue(2, 60, [1])] && Front(Front(OVERTAKEN)) == [];
    assert Run(Front(OVERTAKEN)) == [Item(2, [1])];
  }
}
