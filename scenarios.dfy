/** Usage scenarios of the protocol, stated over the queue steps and over the
    host and subscriber objects sharing one region. */
module Scenarios {
  import opened Layout
  import opened Ring
  import opened HostEngine
  import opened Subscriber

  /** An empty queue created with capacity 2 (three slots) on which
      subscribers 0 and 1 are subscribed and in good standing. */
  predicate TwoSubscriberQueue(q: QueueState)
  {
    && Inv(q) && q.desc.numMessages == 3 && q.local.count == 0
    && q.desc.subs == {0, 1} && q.desc.badSubs == {}
  }

  /** Subscriber 0 never acknowledges. The message is posted at `t` into the
      queue `q0`, giving `q1`. A tick before the head's deadline changes
      nothing (`q2`). Subscriber 1 acknowledges (`q3`). A tick after the
      deadline flags subscriber 0 bad with a reap deadline 10 s ahead, and
      the message completes (`q4`). A tick after that deadline drops
      subscriber 0, leaving only subscriber 1 (`q5`). */
  lemma SlowSubscriberIsFlaggedThenReaped(
    q0: QueueState, q1: QueueState, q2: QueueState, q3: QueueState, q4: QueueState, q5: QueueState,
    t: nat, t1: nat, t2: nat, t3: nat, payload: Memory)
    requires TwoSubscriberQueue(q0)
    requires t <= t1 <= t + MAX_MESSAGE_AGE < t2 && t2 + MAX_QUEUE_TIMEOUT < t3
    requires q1 == Post(q0, 1, payload, t).1
    requires q2 == Tick(q1, t1)
    requires q3 == Acknowledge(q2, q2.local.start, 1)
    requires q4 == Tick(q3, t2)
    requires q5 == Tick(q4, t3)
    ensures Head(q1).pendingSubs == {0, 1} && q1.local.count == 1
    ensures q2 == q1
    ensures Head(q3).pendingSubs == {0}
    ensures q4.local.count == 0 && q4.desc.badSubs == {0} && q4.desc.subs == {0, 1}
    ensures q4.local.timeout[0] == t2 + MAX_QUEUE_TIMEOUT
    ensures q5.desc.badSubs == {} && q5.desc.subs == {1}
  {
    PostIntoEmptyQueue(q0, t, payload);
    assert Expire(q1, t1) == q1;
    assert Retire(q1, t1) == q1;
    assert Head(q3).pendingSubs == {0};
    OverdueTickFlagsSlowSubscriber(q3, t2);
    assert Expired(q4.desc.badSubs, q4.local.timeout, t3) == {0};
    assert q4.desc.subs - {0} == {1};
  }

  /** The first post into the empty two-subscriber queue: the message is
      the head, both subscribers are pending on it, and its deadline is
      150 ms after the post. */
  lemma PostIntoEmptyQueue(q0: QueueState, t: nat, payload: Memory)
    requires TwoSubscriberQueue(q0)
    ensures var q1 := Post(q0, 1, payload, t).1;
      && Inv(q1) && q1.local.count == 1 && Head(q1).pendingSubs == {0, 1}
      && q1.desc.subs == {0, 1} && q1.desc.badSubs == {}
      && q1.local.msgTimeout == t + MAX_MESSAGE_AGE
  {
    var q1 := Post(q0, 1, payload, t).1;
    assert Head(q1) == Outstanding(q1)[0];
  }

  /** The overdue tick of the slow-subscriber scenario: the only pending
      subscriber of the sole message is flagged bad with a reap deadline
      10 s ahead, and the message completes. */
  lemma OverdueTickFlagsSlowSubscriber(q: QueueState, now: nat)
    requires Inv(q) && q.local.count == 1 && Head(q).pendingSubs == {0}
    requires q.desc.subs == {0, 1} && q.desc.badSubs == {} && now > q.local.msgTimeout
    ensures Tick(q, now).local.count == 0
    ensures Tick(q, now).desc.badSubs == {0} && Tick(q, now).desc.subs == {0, 1}
    ensures Tick(q, now).local.timeout[0] == now + MAX_QUEUE_TIMEOUT
  {
    var e := Expire(q, now);
    assert {0, 1} * {0} == {0};
    assert e.desc.badSubs == {0} && e.local.timeout[0] == now + MAX_QUEUE_TIMEOUT;
    assert Head(e).pendingSubs == {};
    var r := Retire(e, now);
    assert r.local.count == 0;
    assert Expired(r.desc.badSubs, r.local.timeout, now) == {};
  }

  /** With a slow subscriber, the third back-to-back post into a queue of
      capacity 2 is refused and changes nothing; once a tick has completed
      the overdue first message, the post goes through. */
  lemma ThirdPostWaitsForTick(q0: QueueState, t: nat, later: nat, payload: Memory)
    requires TwoSubscriberQueue(q0)
    requires t + MAX_MESSAGE_AGE < later
    ensures var first := Post(q0, 1, payload, t);
      var second := Post(first.1, 2, payload, t);
      var third := Post(second.1, 3, payload, t);
      var retry := Post(Tick(third.1, later), 3, payload, later);
      && first.0 == Ok && second.0 == Ok
      && third.0 == ErrQueueFull && third.1 == second.1
      && retry.0 == Ok && retry.1.local.count == 2
  {
    var first := Post(q0, 1, payload, t);
    var second := Post(first.1, 2, payload, t);
    assert second.1.local.msgTimeout == t + MAX_MESSAGE_AGE;
    TickCompletesOverdueHead(second.1, later);
  }

  /** A host initialises a fresh region of 4096 bytes, creates one queue of
      type 7 and capacity 2, and ticks once. */
  method StartHost() returns (region: Region, host: Host)
    ensures fresh(region) && fresh(host) && host.region == region && host.Valid()
    ensures region.magic == PROTOCOL_MAGIC && region.version == PROTOCOL_VERSION
    ensures region.size == 4096 && region.numQueues == 1 && region.heartbeat == 1
    ensures host.nextFree == HEADER_SIZE + 3 * MESSAGE_SIZE
    ensures host.QueueAt(0).desc.queueType == 7 && host.QueueAt(0).desc.numMessages == 3
    ensures host.QueueAt(0).desc.subs == {} && host.QueueAt(0).desc.badSubs == {}
    ensures host.QueueAt(0).desc.position == 0 && host.QueueAt(0).local.count == 0
  {
    region := new Region(4096, 0);
    var status, h := Host.Init(region);
    assert status == Ok;
    host := h;
    var index;
    status, index := host.AddQueue(7, 2, 0);
    assert status == Ok && index == 0;
    assert host.QueueAt(0).desc.subs == {};
    status := host.Process(1);
  }

  /** After the host's first tick a subscriber attaches to the region and
      takes subscriber id 0 on the queue. */
  method Attach() returns (region: Region, host: Host, client: Client)
    ensures fresh(region) && fresh(host) && fresh(client)
    ensures host.region == region && client.region == region
    ensures host.Valid() && client.Valid()
    ensures region.size == 4096 && region.numQueues == 1 && host.nextFree == HEADER_SIZE + 3 * MESSAGE_SIZE
    ensures host.QueueAt(0).desc.numMessages == 3
    ensures host.QueueAt(0).desc.subs == {0} && host.QueueAt(0).desc.badSubs == {}
    ensures host.QueueAt(0).desc.position == 0 && host.QueueAt(0).local.count == 0
    ensures client.queues[0] == ClientQueue(true, 0, 0, 0)
  {
    region, host := StartHost();
    var status, c := Client.Init(region, 1, 0, 1);
    assert status == Ok;
    client := c;
    var subscribed;
    ghost var before := region.queues[0];
    status, subscribed := client.Subscribe(7);
    assert status != ErrNoSuchQueue;
    assert 0 !in before.subs;
    assert status == Ok && subscribed == 0;
    forall j | 0 <= j < region.numQueues
      ensures Inv(host.QueueAt(j)) && host.RingBlock(j) in host.blocks
    {
    }
  }

  /** The host allocates a 64-byte payload right after the rings and posts
      one message of type 9 on it to the attached subscriber. */
  method PostOne() returns (region: Region, host: Host, client: Client)
    ensures fresh(region) && fresh(host) && fresh(client)
    ensures host.region == region && client.region == region
    ensures host.Valid() && client.Valid()
    ensures region.numQueues == 1 && region.queues[0].position == 1
    ensures region.queues[0].subs == {0} && region.queues[0].badSubs == {}
    ensures client.queues[0] == ClientQueue(true, 0, 0, 0)
    ensures host.QueueAt(0).local.count == 1 && host.QueueAt(0).local.start == 0
    ensures host.QueueAt(0).ring[0] == Message(9, 64, HEADER_SIZE + 3 * MESSAGE_SIZE, {0})
  {
    region, host, client := Attach();
    var status, mem := host.MemAlloc(64);
    assert status == Ok && mem == Memory(HEADER_SIZE + 3 * MESSAGE_SIZE, 64);
    ghost var q0 := host.QueueAt(0);
    status := host.Post(0, 9, mem, 2);
    ghost var q1 := host.QueueAt(0);
    assert (status, q1) == Ring.Post(q0, 9, mem, 2);
    assert status == Ok && q1.local.count == 1 && q1.local.start == 0;
    assert q1.desc == region.queues[0] && q1.desc.numMessages == 3;
    assert q1.ring[0] == Outstanding(q1)[0];
  }

  /** The subscriber reads and acknowledges the posted message, and the
      host's next tick retires it. */
  method PostReadAcknowledge() returns (received: Delivered, outstanding: nat)
    ensures received == Delivered(9, 64, HEADER_SIZE + 3 * MESSAGE_SIZE)
    ensures outstanding == 0
  {
    var region, host, client := PostOne();
    ghost var q1 := host.QueueAt(0);
    var status;
    status, received := client.Process(0);
    status := client.MessageDone(0);
    assert status == Ok;
    assert host.QueueAt(0) == Acknowledge(q1, 0, 0);
    assert host.Valid();
    TickRetiresAcknowledgedHead(host.QueueAt(0), 3);
    status := host.Process(3);
    outstanding := host.queues[0].count;
  }
}
