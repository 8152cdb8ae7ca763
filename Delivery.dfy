/**
 * Program.cs, the delivery pass of one poll cycle: each new message is
 * published when the bus is connected (after the whole spool, which is then
 * cleared), and spooled when it is not.
 */
module Delivery {
  import opened Spool
  import opened Bus

  /** The observable state of delivery: what the bus has been given, and the spool. */
  datatype DeliveryState = DeliveryState(published: seq<string>, spool: seq<string>)

  /** One message: connected, the spool and then the message go out; disconnected, it is spooled. */
  function DeliverOne(s: DeliveryState, enabled: bool, message: string, connected: bool): DeliveryState
  {
    if connected then DeliveryState(s.published + (if enabled then s.spool + [message] else []), [])
    else DeliveryState(s.published, s.spool + [message])
  }

  /** The messages of a cycle, in order; connected[k] is the bus state seen by message k. */
  function DeliverAll(s: DeliveryState, enabled: bool, messages: seq<string>, connected: seq<bool>): DeliveryState
    requires |connected| == |messages|
  {
    if |messages| == 0 then s
    else
      var k := |messages| - 1;
      DeliverOne(DeliverAll(s, enabled, messages[..k], connected[..k]), enabled, messages[k], connected[k])
  }

  /** No loss, no reordering: the bus log followed by the spool is the old log, the old spool and the new messages. */
  lemma {:induction false} NoLossNoReorder(s: DeliveryState, messages: seq<string>, connected: seq<bool>)
    requires |connected| == |messages|
    ensures var t := DeliverAll(s, true, messages, connected);
      t.published + t.spool == s.published + s.spool + messages
  {
    if |messages| > 0 {
      var k := |messages| - 1;
      NoLossNoReorder(s, messages[..k], connected[..k]);
      var t := DeliverAll(s, true, messages[..k], connected[..k]);
      assert messages == messages[..k] + [messages[k]];
      if connected[k] {
        assert DeliverAll(s, true, messages, connected).published == t.published + t.spool + [messages[k]];
      } else {
        var u := DeliverAll(s, true, messages, connected);
        assert u.published == t.published && u.spool == t.spool + [messages[k]];
        calc {
          u.published + u.spool;
          t.published + (t.spool + [messages[k]]);
          (t.published + t.spool) + [messages[k]];
          s.published + s.spool + messages[..k] + [messages[k]];
        }
      }
    }
  }

  /** The bus log only grows: what was published stays published, in place. */
  lemma {:induction false} PublishedOnlyGrows(s: DeliveryState, enabled: bool, messages: seq<string>, connected: seq<bool>)
    requires |connected| == |messages|
    ensures var t := DeliverAll(s, enabled, messages, connected);
      |s.published| <= |t.published| && t.published[..|s.published|] == s.published
  {
    if |messages| > 0 {
      var k := |messages| - 1;
      PublishedOnlyGrows(s, enabled, messages[..k], connected[..k]);
    }
  }

  /** With publishing disabled nothing reaches the bus, whatever the connection. */
  lemma {:induction false} DisabledPublishesNothing(s: DeliveryState, messages: seq<string>, connected: seq<bool>)
    requires |connected| == |messages|
    ensures DeliverAll(s, false, messages, connected).published == s.published
  {
    if |messages| > 0 {
      var k := |messages| - 1;
      DisabledPublishesNothing(s, messages[..k], connected[..k]);
    }
  }

  /** While disconnected, every message is spooled behind the old ones and nothing is published. */
  lemma {:induction false} OutageSpoolsAll(s: DeliveryState, enabled: bool, messages: seq<string>, connected: seq<bool>)
    requires |connected| == |messages|
    requires forall k :: 0 <= k < |connected| ==> !connected[k]
    ensures DeliverAll(s, enabled, messages, connected) == DeliveryState(s.published, s.spool + messages)
  {
    if |messages| > 0 {
      var k := |messages| - 1;
      OutageSpoolsAll(s, enabled, messages[..k], connected[..k]);
      assert messages == messages[..k] + [messages[k]];
    }
  }

  /** A cycle whose last message sees the bus connected ends with an empty spool. */
  lemma LastConnectedDrains(s: DeliveryState, enabled: bool, messages: seq<string>, connected: seq<bool>)
    requires |connected| == |messages| && |messages| > 0
    requires connected[|connected| - 1]
    ensures DeliverAll(s, enabled, messages, connected).spool == []
  {
  }

  /** Delivering two batches one after the other is delivering their concatenation. */
  lemma {:induction false} DeliverConcat(s: DeliveryState, enabled: bool,
                                         m1: seq<string>, c1: seq<bool>, m2: seq<string>, c2: seq<bool>)
    requires |c1| == |m1| && |c2| == |m2|
    ensures DeliverAll(DeliverAll(s, enabled, m1, c1), enabled, m2, c2) == DeliverAll(s, enabled, m1 + m2, c1 + c2)
    decreases |m2|
  {
    if |m2| == 0 {
      assert m1 + m2 == m1 && c1 + c2 == c1;
    } else {
      var k := |m2| - 1;
      DeliverConcat(s, enabled, m1, c1, m2[..k], c2[..k]);
      assert (m1 + m2)[..|m1| + k] == m1 + m2[..k];
      assert (c1 + c2)[..|c1| + k] == c1 + c2[..k];
      assert (m1 + m2)[|m1| + k] == m2[k] && (c1 + c2)[|c1| + k] == c2[k];
    }
  }

  /**
   * Three cycles with the bus down, each producing one event, then a fourth
   * with the bus up: the bus sees the three spooled events, then the new one,
   * and the spool ends empty.
   */
  lemma OutageThenRecovery(a: string, b: string, c: string, d: string)
    ensures var s0 := DeliveryState([], []);
      var s3 := DeliverAll(DeliverAll(DeliverAll(s0, true, [a], [false]), true, [b], [false]), true, [c], [false]);
      DeliverAll(s3, true, [d], [true]) == DeliveryState([a, b, c, d], [])
  {
    var s0 := DeliveryState([], []);
    DeliverConcat(s0, true, [a], [false], [b], [false]);
    DeliverConcat(s0, true, [a, b], [false, false], [c], [false]);
    OutageSpoolsAll(s0, true, [a, b, c], [false, false, false]);
  }

  /** The inner foreach: every spooled message, front first. */
  method PublishAll(bus: MonitoringQueue, items: seq<string>)
    modifies bus`published
    ensures bus.published == old(bus.published) + (if bus.publishEnabled then items else [])
  {
    var i := 0;
    while i < |items|
      invariant 0 <= i <= |items|
      invariant bus.published == old(bus.published) + (if bus.publishEnabled then items[..i] else [])
    {
      bus.Publish(items[i]);
      assert items[..i + 1] == items[..i] + [items[i]];
      i := i + 1;
    }
    assert items[..i] == items;
  }

  /**
   * The delivery foreach over a cycle's messages. The spool's Count must agree
   * with its queue, as it always does in the poll loop: the spool is drained
   * on the strength of Count > 0.
   */
  method Deliver(messages: seq<string>, connected: seq<bool>, spool: LocalQueue, bus: MonitoringQueue)
    requires |connected| == |messages|
    requires spool.Synced()
    modifies spool, bus`published
    ensures DeliveryState(bus.published, spool.localTempQueue)
         == DeliverAll(DeliveryState(old(bus.published), old(spool.localTempQueue)), bus.publishEnabled, messages, connected)
    ensures bus.publishEnabled ==>
      bus.published + spool.localTempQueue == old(bus.published) + old(spool.localTempQueue) + messages
    ensures spool.Synced() && spool.queueFile == old(spool.queueFile)
  {
    ghost var start := DeliveryState(bus.published, spool.localTempQueue);
    var i := 0;
    while i < |messages|
      invariant 0 <= i <= |messages|
      invariant spool.Synced() && spool.queueFile == old(spool.queueFile)
      invariant DeliveryState(bus.published, spool.localTempQueue)
             == DeliverAll(start, bus.publishEnabled, messages[..i], connected[..i])
      invariant bus.publishEnabled ==>
        bus.published + spool.localTempQueue == old(bus.published) + old(spool.localTempQueue) + messages[..i]
    {
      if connected[i] {
        if spool.count > 0 {
          PublishAll(bus, spool.localTempQueue);
          spool.Clear();
        }
        bus.Publish(messages[i]);
      } else {
        spool.Enqueue(messages[i]);
      }
      assert messages[..i + 1][..i] == messages[..i];
      assert connected[..i + 1][..i] == connected[..i];
      if bus.publishEnabled {
        NoLossNoReorder(start, messages[..i + 1], connected[..i + 1]);
      }
      i := i + 1;
    }
    assert messages[..i] == messages;
    assert connected[..i] == connected;
  }
}
