/**
  The subscriber table as a state machine. Publishing and the table updates of subscribe, unsubscribe and clear each
  happen under the lock; but unsubscribe and clear close the channels they removed only after releasing it, and a
  receiver takes messages at any time. Every interleaving of these steps is a run.
 */
module Subscribers {
  import opened Prelude

  /** A channel: what was put into it is what was received followed by what still waits; closes counts close calls. */
  datatype Chan = Chan(capacity: nat, received: seq<Bytes>, buffer: seq<Bytes>, closes: nat) {
    function Sent(): seq<Bytes> { received + buffer }
    predicate HasRoom() { |buffer| < capacity }
  }

  /**
    chans holds every channel ever made, by number. subscription k gets channel k, and its unsubscribe handle
    carries ids[k]. initial[k], start[k] and the log of published payloads are history, as is sendsAfterClose.
   */
  datatype State = State(
    chans: seq<Chan>,
    table: map<nat, nat>,
    lastID: nat,
    closing: set<nat>,
    ids: seq<nat>,
    initial: seq<seq<Bytes>>,
    start: seq<nat>,
    published: seq<Bytes>,
    sendsAfterClose: nat)

  datatype Step =
    | Subscribe(capacity: nat, first: seq<Bytes>)
    | Publish(payload: Bytes)
    | Unsubscribe(subscription: nat)
    | ClearTable
    | CloseRemoved(chan: nat)
    | Receive(chan: nat)

  const INIT := State([], map[], 0, {}, [], [], [], [], 0)

  /** One publication as seen by one subscribed channel: delivered if there is room, otherwise closed. */
  function Offered(ch: Chan, payload: Bytes): Chan {
    if ch.HasRoom() then ch.(buffer := ch.buffer + [payload]) else ch.(closes := ch.closes + 1)
  }

  function PublishedChans(chans: seq<Chan>, table: map<nat, nat>, payload: Bytes): seq<Chan> {
    seq(|chans|, k requires 0 <= k < |chans| => if k in table.Values then Offered(chans[k], payload) else chans[k])
  }

  function PublishedTable(chans: seq<Chan>, table: map<nat, nat>): map<nat, nat> {
    map id | id in table && table[id] < |chans| && chans[table[id]].HasRoom() :: table[id]
  }

  /** The subscribed channels that were already closed: sending to one of them would be a failure. */
  function ClosedTargets(s: State): set<nat> {
    set k | k in s.table.Values && k < |s.chans| && s.chans[k].closes > 0
  }

  /** Steps that are not possible change nothing. */
  function Apply(s: State, step: Step): State {
    match step
    case Subscribe(capacity, first) =>
      // A first message is put into the new channel before it is shared, which needs room for it.
      if |first| > capacity then s else
      s.(chans := s.chans + [Chan(capacity, [], first, 0)],
         table := s.table[s.lastID + 1 := |s.chans|],
         lastID := s.lastID + 1,
         ids := s.ids + [s.lastID + 1],
         initial := s.initial + [first],
         start := s.start + [|s.published|])
    case Publish(payload) =>
      s.(chans := PublishedChans(s.chans, s.table, payload),
         table := PublishedTable(s.chans, s.table),
         published := s.published + [payload],
         sendsAfterClose := s.sendsAfterClose + |ClosedTargets(s)|)
    case Unsubscribe(k) =>
      if k < |s.ids| && s.ids[k] in s.table
      then s.(table := s.table - {s.ids[k]}, closing := s.closing + {s.table[s.ids[k]]}) else s
    case ClearTable =>
      s.(table := map[], closing := s.closing + s.table.Values)
    case CloseRemoved(k) =>
      if k in s.closing && k < |s.chans|
      then s.(chans := s.chans[k := s.chans[k].(closes := s.chans[k].closes + 1)], closing := s.closing - {k}) else s
    case Receive(k) =>
      if k < |s.chans| && s.chans[k].buffer != []
      then s.(chans := s.chans[k := s.chans[k].(received := s.chans[k].received + [s.chans[k].buffer[0]],
                                                  buffer := s.chans[k].buffer[1..])]) else s
  }

  function Run(steps: seq<Step>): State {
    if steps == [] then INIT else Apply(Run(steps[..|steps| - 1]), steps[|steps| - 1])
  }

  // ---------------------------------------------------------------- the invariant

  /** Everything subscription k was due: its first messages and all that was published since. */
  function Due(s: State, k: nat): seq<Bytes>
    requires k < |s.initial| && k < |s.start| && s.start[k] <= |s.published|
  {
    s.initial[k] + s.published[s.start[k]..]
  }

  predicate Subscribed(s: State, k: nat) { k < |s.ids| && s.ids[k] in s.table }

  ghost predicate Shape(s: State) {
    && |s.ids| == |s.initial| == |s.start| == |s.chans|
    && (forall k | 0 <= k < |s.start| :: s.start[k] <= |s.published|)
    && (forall k | 0 <= k < |s.ids| :: s.ids[k] == k + 1)
    && s.lastID == |s.chans|
    && (forall id | id in s.table :: 1 <= id <= |s.chans| && s.table[id] == id - 1)
    && (forall k | k in s.closing :: k < |s.chans| && !Subscribed(s, k))
    && s.sendsAfterClose == 0
  }

  /** What holds of one subscription's channel. */
  ghost predicate ChannelGood(s: State, k: nat)
    requires Shape(s) && k < |s.chans|
  {
    var ch := s.chans[k];
    && |ch.buffer| <= ch.capacity
    && ch.Sent() <= Due(s, k)
    && (Subscribed(s, k) ==> ch.Sent() == Due(s, k))
    && ch.closes <= 1
    && (Subscribed(s, k) || k in s.closing <==> ch.closes == 0)
  }

  ghost predicate Invariant(s: State) {
    Shape(s) && forall k | 0 <= k < |s.chans| :: ChannelGood(s, k)
  }

  lemma TargetsAreSubscribed(s: State, k: nat)
    requires Shape(s) && k < |s.chans|
    ensures k in s.table.Values <==> Subscribed(s, k)
  {
    if k in s.table.Values {
      var id :| id in s.table && s.table[id] == k;
    }
  }

  lemma PublishKeepsShape(s: State, payload: Bytes)
    requires Invariant(s)
    ensures Shape(Apply(s, Publish(payload)))
  {
    forall k | k in s.table.Values ensures s.chans[k].closes == 0 {
      TargetsAreSubscribed(s, k);
      assert ChannelGood(s, k);
    }
    assert ClosedTargets(s) == {};
  }

  lemma PublishKeepsChannel(s: State, payload: Bytes, k: nat)
    requires Invariant(s) && k < |s.chans|
    ensures var u := Apply(s, Publish(payload)); Shape(u) && ChannelGood(u, k)
  {
    PublishKeepsShape(s, payload);
    var u := Apply(s, Publish(payload));
    TargetsAreSubscribed(s, k);
    assert ChannelGood(s, k);
    assert Due(u, k) == Due(s, k) + [payload];
    if Subscribed(s, k) && s.chans[k].HasRoom() {
      assert u.chans[k].Sent() == s.chans[k].Sent() + [payload];
    }
  }

  lemma ReceiveKeepsChannels(s: State, k: nat)
    requires Invariant(s)
    ensures Invariant(Apply(s, Receive(k)))
  {
    var u := Apply(s, Receive(k));
    if k < |s.chans| && s.chans[k].buffer != [] {
      assert u.chans[k].Sent() == s.chans[k].Sent();
      forall j | 0 <= j < |u.chans| ensures ChannelGood(u, j) { assert ChannelGood(s, j); }
    }
  }

  lemma SubscribeKeepsChannels(s: State, capacity: nat, first: seq<Bytes>)
    requires Invariant(s)
    ensures Invariant(Apply(s, Subscribe(capacity, first)))
  {
    var u := Apply(s, Subscribe(capacity, first));
    if |first| <= capacity {
      forall j | 0 <= j < |u.chans| ensures ChannelGood(u, j) {
        if j < |s.chans| {
          assert ChannelGood(s, j);
          assert Due(u, j) == Due(s, j);
          assert Subscribed(u, j) <==> Subscribed(s, j);
        } else {
          assert Due(u, j) == first;
          assert u.chans[j].Sent() == first;
        }
      }
    }
  }

  lemma RemovalKeepsChannels(s: State, step: Step)
    requires Invariant(s) && (step.Unsubscribe? || step.ClearTable? || step.CloseRemoved?)
    ensures Invariant(Apply(s, step))
  {
    var u := Apply(s, step);
    forall j | 0 <= j < |s.chans| ensures j in s.table.Values <==> Subscribed(s, j) { TargetsAreSubscribed(s, j); }
    assert Shape(u);
    forall j | 0 <= j < |u.chans| ensures ChannelGood(u, j) {
      assert ChannelGood(s, j);
      assert Due(u, j) == Due(s, j);
    }
  }

  lemma StepKeepsInvariant(s: State, step: Step)
    requires Invariant(s)
    ensures Invariant(Apply(s, step))
  {
    match step
    case Subscribe(capacity, first) => SubscribeKeepsChannels(s, capacity, first);
    case Publish(payload) =>
      PublishKeepsShape(s, payload);
      forall k | 0 <= k < |s.chans| { PublishKeepsChannel(s, payload, k); }
    case Receive(k) => ReceiveKeepsChannels(s, k);
    case _ => RemovalKeepsChannels(s, step);
  }

  // ---------------------------------------------------------------- what each step does

  /** A publication reaches every subscriber with room; one without is dropped and its channel closed. */
  lemma PublishReaches(s: State, payload: Bytes, k: nat)
    requires Invariant(s) && Subscribed(s, k) && k < |s.chans|
    ensures var u := Apply(s, Publish(payload));
            k < |u.chans|
            && if |s.chans[k].buffer| < s.chans[k].capacity
               then Subscribed(u, k) && u.chans[k] == s.chans[k].(buffer := s.chans[k].buffer + [payload])
               else !Subscribed(u, k) && u.chans[k] == s.chans[k].(closes := s.chans[k].closes + 1)
  {
    TargetsAreSubscribed(s, k);
  }

  /** Nobody else gets anything, and nobody else's channel is closed. */
  lemma PublishLeavesOthers(s: State, payload: Bytes, k: nat)
    requires Invariant(s) && !Subscribed(s, k) && k < |s.chans|
    ensures var u := Apply(s, Publish(payload)); k < |u.chans| && u.chans[k] == s.chans[k] && !Subscribed(u, k)
  {
    TargetsAreSubscribed(s, k);
  }

  /** A new subscriber comes last, with its first messages waiting, and changes nobody else's channel. */
  lemma SubscribeAdds(s: State, capacity: nat, first: seq<Bytes>, k: nat)
    requires Invariant(s) && |first| <= capacity
    ensures var u := Apply(s, Subscribe(capacity, first));
            && |u.chans| == |s.chans| + 1 && Subscribed(u, |s.chans|)
            && u.chans[|s.chans|] == Chan(capacity, [], first, 0)
            && (k < |s.chans| ==> u.chans[k] == s.chans[k] && (Subscribed(u, k) <==> Subscribed(s, k)))
  {}

  /** Unsubscribing and clearing take subscribers out of the table and leave their channels to be closed. */
  lemma RemovalsRemove(s: State, k: nat)
    requires Invariant(s) && k < |s.chans|
    ensures !Subscribed(Apply(s, Unsubscribe(k)), k) && !Subscribed(Apply(s, ClearTable), k)
    ensures Subscribed(s, k) ==> k in Apply(s, Unsubscribe(k)).closing && k in Apply(s, ClearTable).closing
    ensures k in s.closing ==> Apply(s, CloseRemoved(k)).chans[k].closes == s.chans[k].closes + 1
  {
    TargetsAreSubscribed(s, k);
  }

  /** A receiver takes the oldest waiting message. */
  lemma ReceiveTakesOldest(s: State, k: nat)
    requires k < |s.chans| && s.chans[k].buffer != []
    ensures var ch, after := s.chans[k], Apply(s, Receive(k)).chans[k];
            after.received == ch.received + [ch.buffer[0]] && [ch.buffer[0]] + after.buffer == ch.buffer
  {}

  // ---------------------------------------------------------------- what every run guarantees

  lemma {:induction false} RunKeepsInvariant(steps: seq<Step>)
    ensures Invariant(Run(steps))
  {
    if steps != [] {
      RunKeepsInvariant(steps[..|steps| - 1]);
      StepKeepsInvariant(Run(steps[..|steps| - 1]), steps[|steps| - 1]);
    }
  }

  /**
    In every interleaving: what a subscriber was sent is a prefix of what it was due, all of it while it stays
    subscribed; its channel is closed at most once, never sent to after that, and never holds more than its capacity.
   */
  lemma EverySubscriberIsServed(steps: seq<Step>, k: nat)
    requires k < |Run(steps).chans|
    ensures var s := Run(steps);
            && |s.initial| == |s.start| == |s.chans| && s.start[k] <= |s.published|
            && s.chans[k].Sent() <= Due(s, k)
            && (Subscribed(s, k) ==> s.chans[k].Sent() == Due(s, k) && s.chans[k].closes == 0)
            && s.chans[k].closes <= 1
            && |s.chans[k].buffer| <= s.chans[k].capacity
            && s.sendsAfterClose == 0
  {
    RunKeepsInvariant(steps);
    assert ChannelGood(Run(steps), k);
  }

  /** A channel taken out of the table is closed once whoever removed it gets to run, and is then never sent to. */
  lemma ClosedStaysAsItIs(steps: seq<Step>, step: Step, k: nat)
    requires k < |Run(steps).chans| && Run(steps).chans[k].closes == 1
    ensures var s, u := Run(steps), Apply(Run(steps), step);
            k < |u.chans| && u.chans[k].Sent() == s.chans[k].Sent() && u.chans[k].closes == 1
  {
    RunKeepsInvariant(steps);
    assert ChannelGood(Run(steps), k);
    ClosedStep(Run(steps), step, k);
  }

  lemma ClosedStep(s: State, step: Step, k: nat)
    requires Shape(s) && k < |s.chans| && s.chans[k].closes == 1 && !Subscribed(s, k) && k !in s.closing
    ensures var u := Apply(s, step);
            k < |u.chans| && u.chans[k].Sent() == s.chans[k].Sent() && u.chans[k].closes == 1
  {
    TargetsAreSubscribed(s, k);
    if step.Receive? && step.chan == k && s.chans[k].buffer != [] {
      assert Apply(s, step).chans[k].Sent() == s.chans[k].Sent();
    }
  }

  /** An unsubscribe, however late, touches no subscription but its own. */
  lemma UnsubscribeTouchesOnlyItsOwn(steps: seq<Step>, k: nat, j: nat)
    requires j != k && j < |Run(steps).chans|
    ensures var s, u := Run(steps), Apply(Run(steps), Unsubscribe(k));
            && (Subscribed(u, j) <==> Subscribed(s, j))
            && u.chans[j] == s.chans[j]
            && (j in u.closing <==> j in s.closing)
  {
    RunKeepsInvariant(steps);
  }

  /** While nothing is in flight between removal and close, the open channels are exactly the subscribed ones. */
  lemma NoLeakedChannel(steps: seq<Step>, k: nat)
    requires k < |Run(steps).chans| && Run(steps).closing == {}
    ensures Run(steps).chans[k].closes == 0 <==> Subscribed(Run(steps), k)
  {
    RunKeepsInvariant(steps);
    assert ChannelGood(Run(steps), k);
  }
}
