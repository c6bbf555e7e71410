/**
  The queue object: a slice with a moving head that is pruned by time and compacted now and then, next to a table of
  subscriber channels. The slice is proved to show exactly the first-in first-out queue, the table to follow the
  subscriber state machine.
 */
module UsageQueues {
  import opened Prelude
  import F = Fifo
  import S = Subscribers

  /** A table whose entries are distinct existing channels. */
  ghost predicate Distinct(table: map<nat, nat>, chans: seq<S.Chan>) {
    && (forall id | id in table :: table[id] < |chans|)
    && (forall a, b | a in table && b in table && table[a] == table[b] :: a == b)
  }

  class Queue {
    var items: seq<F.Item>
    var head: nat
    var subscribers: map<nat, nat>
    var nextSubscriberID: nat
    /** Every channel ever made; the table refers to them by number. */
    var channels: seq<S.Chan>
    /** The state machine's record of this queue's subscribers, with its history. */
    ghost var machine: S.State

    /** What the queue holds: the part of the slice from the head on. */
    function Contents(): seq<F.Item>
      requires head <= |items|
      reads this
    {
      items[head..]
    }

    /** Dead slots are bounded: the head is at the front, or it is small and less than half of the slice is dead. */
    predicate Compact()
      reads this
    {
      head == 0 || (head < 1024 && 2 * head < |items|)
    }

    /** The subscriber table and the channels are where the state machine says they are. */
    ghost predicate Followed()
      reads this
    {
      && machine.chans == channels && machine.table == subscribers && machine.lastID == nextSubscriberID
      && S.Invariant(machine)
    }

    ghost predicate Valid()
      reads this
    {
      Compact() && Followed()
    }

    constructor ()
      ensures Valid() && Contents() == [] && machine == S.INIT
    {
      items, head, subscribers, nextSubscriberID, channels := [], 0, map[], 0, [];
      machine := S.INIT;
    }

    // -------------------------------------------------------------- the slice

    method PruneLocked(now: int, windowSeconds: int)
      requires head <= |items|
      modifies `items, `head
      ensures head <= |items| && Contents() == F.Young(old(Contents()), now, windowSeconds)
      ensures |items| <= |old(items)|
    {
      if head >= |items| {
        items := [];
        head := 0;
        return;
      }
      var window := if windowSeconds <= 0 then F.DEFAULT_RETENTION_SECONDS else windowSeconds;
      var cutoff := now - window * F.NANOSECONDS;
      while head < |items| && items[head].enqueuedAt < cutoff
        invariant items == old(items) && old(head) <= head <= |items|
        invariant forall i | 0 <= i < head - old(head) :: old(Contents())[i].enqueuedAt < cutoff
      {
        head := head + 1;
      }
      F.StaleCountIs(old(Contents()), cutoff, head - old(head));
    }

    method MaybeCompactLocked()
      requires head <= |items|
      modifies `items, `head
      ensures Compact() && Contents() == old(Contents())
    {
      if head == 0 { return; }
      if head >= |items| {
        items := [];
        head := 0;
        return;
      }
      if head < 1024 && head * 2 < |items| { return; }
      items := items[head..];
      head := 0;
    }

    /** Append one item, after dropping what has become too old. */
    method EnqueueItem(payload: Bytes, now: int, windowSeconds: int)
      requires Compact()
      modifies `items, `head
      ensures Compact() && Contents() == F.After(old(Contents()), F.Enqueue(now, windowSeconds, payload))
    {
      PruneLocked(now, windowSeconds);
      ghost var young := Contents();
      items := items + [F.Item(now, payload)];
      assert Contents() == young + [F.Item(now, payload)];
      MaybeCompactLocked();
    }

    /** Prune, then take up to count items from the front; what is left may be compacted. */
    method PopOldest(count: nat, now: int, windowSeconds: int) returns (out: seq<Bytes>)
      requires Compact()
      modifies `items, `head
      ensures Compact()
      ensures out == F.Output(old(Contents()), F.Pop(now, windowSeconds, count))
      ensures Contents() == F.After(old(Contents()), F.Pop(now, windowSeconds, count))
    {
      PruneLocked(now, windowSeconds);
      out := TakeOldest(count);
    }

    method TakeOldest(count: nat) returns (out: seq<Bytes>)
      requires head <= |items|
      modifies `items, `head
      ensures Compact()
      ensures var n := if count > |old(Contents())| then |old(Contents())| else count;
              out == F.Payloads(old(Contents())[..n]) && Contents() == old(Contents())[n..]
    {
      ghost var young := Contents();
      var available := |items| - head;
      if available <= 0 {
        items := [];
        head := 0;
        return [];
      }
      var n := if count > available then available else count;
      out := [];
      for i := 0 to n
        invariant out == F.Payloads(young[..i])
      {
        assert items[head + i] == young[i];
        out := out + [items[head + i].payload];
      }
      head := head + n;
      assert Contents() == young[n..];
      MaybeCompactLocked();
    }

    // -------------------------------------------------------------- the subscribers

    /** Offer a payload to every subscriber; the ones without room are dropped and closed. */
    method PublishToSubscribers(payload: Bytes) returns (delivered: bool)
      requires Valid()
      modifies `subscribers, `channels, `machine
      ensures Valid() && delivered == (old(subscribers) != map[])
      ensures machine == if delivered then S.Apply(old(machine), S.Publish(payload)) else old(machine)
    {
      if subscribers == map[] { return false; }
      OfferToAll(payload);
      S.StepKeepsInvariant(machine, S.Publish(payload));
      machine := S.Apply(machine, S.Publish(payload));
      delivered := true;
    }

    method OfferTo(id: nat, payload: Bytes)
      requires id in subscribers && subscribers[id] < |channels|
      modifies `subscribers, `channels
      ensures var k := old(subscribers)[id];
              && subscribers == (if old(channels)[k].HasRoom() then old(subscribers) else old(subscribers) - {id})
              && channels == old(channels)[k := S.Offered(old(channels)[k], payload)]
    {
      var k := subscribers[id];
      if channels[k].HasRoom() {
        channels := channels[k := channels[k].(buffer := channels[k].buffer + [payload])];
      } else {
        subscribers := subscribers - {id};
        channels := channels[k := channels[k].(closes := channels[k].closes + 1)];
      }
    }

    method OfferToAll(payload: Bytes)
      requires Distinct(subscribers, channels)
      modifies `subscribers, `channels
      ensures subscribers == S.PublishedTable(old(channels), old(subscribers))
      ensures channels == S.PublishedChans(old(channels), old(subscribers), payload)
    {
      ghost var table, chans := subscribers, channels;
      var todo := subscribers.Keys;
      while todo != {}
        invariant PartlyOffered(table, chans, subscribers, channels, todo, payload)
        decreases |todo|
      {
        var id :| id in todo;
        OfferOne(table, chans, subscribers, channels, todo, payload, id);
        todo := todo - {id};
        OfferTo(id, payload);
      }
      OfferedToAll(table, chans, subscribers, channels, payload);
    }

    method Subscribe(buffer: nat, first: seq<Bytes>) returns (channel: nat, id: nat)
      requires Valid() && |first| <= buffer
      modifies `subscribers, `channels, `nextSubscriberID, `machine
      ensures Valid() && machine == S.Apply(old(machine), S.Subscribe(buffer, first))
      ensures channel < |channels| && channel == |old(channels)| && machine.ids[channel] == id
      ensures channels[channel] == S.Chan(buffer, [], first, 0) && S.Subscribed(machine, channel)
    {
      S.StepKeepsInvariant(machine, S.Subscribe(buffer, first));
      channel := |channels|;
      channels := channels + [S.Chan(buffer, [], first, 0)];
      nextSubscriberID := nextSubscriberID + 1;
      id := nextSubscriberID;
      subscribers := subscribers[id := channel];
      machine := S.Apply(machine, S.Subscribe(buffer, first));
    }

    /** The locked half of unsubscribing: the returned channel, if any, is then to be closed. */
    method UnsubscribeLocked(subscription: nat) returns (toClose: set<nat>)
      requires Valid() && subscription < |machine.ids|
      modifies `subscribers, `machine
      ensures Valid() && machine == S.Apply(old(machine), S.Unsubscribe(subscription))
      ensures machine.closing == old(machine).closing + toClose
      ensures toClose == if S.Subscribed(old(machine), subscription) then {subscription} else {}
    {
      S.StepKeepsInvariant(machine, S.Unsubscribe(subscription));
      var id := subscription + 1;
      toClose := {};
      if id in subscribers {
        toClose := {subscribers[id]};
        subscribers := subscribers - {id};
      }
      machine := S.Apply(machine, S.Unsubscribe(subscription));
    }

    /** The locked half of clearing: the items are gone, and every returned channel is then to be closed. */
    method ClearLocked() returns (toClose: set<nat>)
      requires Valid()
      modifies `items, `head, `subscribers, `machine
      ensures Valid() && Contents() == F.After(old(Contents()), F.Clear)
      ensures machine == S.Apply(old(machine), S.ClearTable) && toClose == old(subscribers).Values
    {
      S.StepKeepsInvariant(machine, S.ClearTable);
      toClose := set id | id in subscribers :: subscribers[id];
      items := [];
      head := 0;
      subscribers := map[];
      machine := S.Apply(machine, S.ClearTable);
    }

    /** The unlocked half: closing one removed channel. It is never already closed. */
    method CloseRemoved(channel: nat)
      requires Valid() && channel in machine.closing
      modifies `channels, `machine
      ensures Valid() && machine == S.Apply(old(machine), S.CloseRemoved(channel))
      ensures channel < |channels| && channels[channel].closes == 1
    {
      assert S.ChannelGood(machine, channel);
      S.StepKeepsInvariant(machine, S.CloseRemoved(channel));
      channels := channels[channel := channels[channel].(closes := channels[channel].closes + 1)];
      machine := S.Apply(machine, S.CloseRemoved(channel));
    }

    /** A reader takes the oldest waiting message from its channel. */
    method Receive(channel: nat) returns (message: Option<Bytes>)
      requires Valid() && channel < |channels|
      modifies `channels, `machine
      ensures Valid() && machine == S.Apply(old(machine), S.Receive(channel))
      ensures message == if old(channels)[channel].buffer == [] then None else Some(old(channels)[channel].buffer[0])
    {
      S.StepKeepsInvariant(machine, S.Receive(channel));
      machine := S.Apply(machine, S.Receive(channel));
      var ch := channels[channel];
      if ch.buffer == [] { return None; }
      message := Some(ch.buffer[0]);
      channels := channels[channel := ch.(received := ch.received + [ch.buffer[0]], buffer := ch.buffer[1..])];
    }

    /** The package's Enqueue: live subscribers take the record, and only without any it is kept in the queue. */
    method Enqueue(enabled: bool, payload: Bytes, now: int, windowSeconds: int)
      requires Valid()
      modifies this
      ensures Valid()
      ensures !enabled || payload == [] ==> machine == old(machine) && Contents() == old(Contents())
      ensures enabled && payload != [] && old(subscribers) != map[] ==>
                machine == S.Apply(old(machine), S.Publish(payload)) && Contents() == old(Contents())
      ensures enabled && payload != [] && old(subscribers) == map[] ==>
                machine == old(machine)
                && Contents() == F.After(old(Contents()), F.Enqueue(now, windowSeconds, payload))
    {
      if !enabled || payload == [] { return; }
      var delivered := PublishToSubscribers(payload);
      if delivered { return; }
      EnqueueItem(payload, now, windowSeconds);
    }
  }

  /** The subscribers outside todo have been offered the payload, the others are as they were. */
  ghost predicate PartlyOffered(table: map<nat, nat>, chans: seq<S.Chan>, left: map<nat, nat>, after: seq<S.Chan>,
                                todo: set<nat>, payload: Bytes)
  {
    // The equation with true makes this one proposition, proved as a whole where it is needed.
    (&& Distinct(table, chans) && todo <= table.Keys && |after| == |chans|
     && (forall id :: id in left <==> id in table && (id in todo || chans[table[id]].HasRoom()))
     && (forall id | id in left :: left[id] == table[id])
     && (forall id | id in table :: after[table[id]] == if id in todo then chans[table[id]]
                                                        else S.Offered(chans[table[id]], payload))
     && (forall k | 0 <= k < |chans| && k !in table.Values :: after[k] == chans[k])) == true
  }

  lemma OfferOne(table: map<nat, nat>, chans: seq<S.Chan>, left: map<nat, nat>, after: seq<S.Chan>,
                 todo: set<nat>, payload: Bytes, id: nat)
    requires PartlyOffered(table, chans, left, after, todo, payload) && id in todo
    ensures id in left && left[id] == table[id] && after[table[id]] == chans[table[id]]
    ensures var k := table[id];
            PartlyOffered(table, chans, if after[k].HasRoom() then left else left - {id},
                          after[k := S.Offered(after[k], payload)], todo - {id}, payload)
  {}

  lemma OfferedToAll(table: map<nat, nat>, chans: seq<S.Chan>, left: map<nat, nat>, after: seq<S.Chan>, payload: Bytes)
    requires PartlyOffered(table, chans, left, after, {}, payload)
    ensures left == S.PublishedTable(chans, table) && after == S.PublishedChans(chans, table, payload)
  {
    forall k | 0 <= k < |chans| ensures after[k] == S.PublishedChans(chans, table, payload)[k] {
      if k in table.Values { var id :| id in table && table[id] == k; }
    }
  }
}
