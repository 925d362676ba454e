/** The subscriber side (lgmp/src/client.c): attaching to a region that a
    live host initialised, watching the host's session and heartbeat, and
    subscribing to, reading from and acknowledging messages of a queue.
    A subscription handle (PLGMPCQueue) is modelled by the directory index
    of its queue: the source keeps one handle slot per directory entry.
    Clock readings and what a concurrently running host wrote to the region
    while the client slept are parameters. */
module Subscriber {
  import opened Layout
  import opened Ring

  /** A subscription handle (struct LGMPCQueue). `attached` is the handle's
      client pointer being set: all fields zero is a detached handle. */
  datatype ClientQueue = ClientQueue(attached: bool, index: nat, id: SubId, position: nat)

  const DETACHED: ClientQueue := ClientQueue(false, 0, 0, 0)

  /** A received message (struct LGMPMessage): its type word, its size and
      where its payload lies in the region. */
  datatype Delivered = Delivered(msgType: U32, size: U32, offset: nat)

  /** The milliseconds since `last`, computed as the source does, in
      unsigned 64-bit arithmetic. */
  function Elapsed(last: U64, now: U64): (r: nat)
    ensures r < U64_MODULUS
    ensures last <= now ==> r == now - last
    ensures now < last ==> r == now + U64_MODULUS - last
  {
    (now - last) % U64_MODULUS
  }

  /** The subscriber-id search of lgmpClientSubscribe: the lowest id whose
      bit is clear in `subs`, or 32 when all are taken. */
  method LowestFree(subs: Mask) returns (id: nat)
    ensures id <= 32
    ensures id < 32 ==> id !in subs
    ensures forall k: SubId :: k < id ==> k in subs
  {
    id := 0;
    while id < 32 && id in subs
      invariant id <= 32
      invariant forall k: SubId :: k < id ==> k in subs
    {
      id := id + 1;
    }
  }

  /** The directory search of lgmpClientSubscribe: the first of the
      `numQueues` created queues whose type is `queueID`, or `numQueues` when
      there is none. */
  method FindQueue(queues: seq<QueueDesc>, numQueues: nat, queueID: U32) returns (index: nat)
    requires numQueues <= |queues|
    ensures index <= numQueues
    ensures index < numQueues ==> queues[index].queueType == queueID
    ensures forall j :: 0 <= j < index ==> queues[j].queueType != queueID
  {
    index := 0;
    while index < numQueues
      invariant index <= numQueues
      invariant forall j :: 0 <= j < index ==> queues[j].queueType != queueID
    {
      if queues[index].queueType == queueID {
        return;
      }
      index := index + 1;
    }
  }

  class Client {
    const region: Region
    var sessionID: U32
    var heartbeat: U32
    var lastHeartbeat: U64
    var queues: seq<ClientQueue>

    /** An attached handle names its own directory entry, a created queue,
        and its read cursor is a slot of that queue's ring. */
    ghost predicate Valid()
      reads this, region
    {
      && region.Valid()
      && |queues| == MAX_QUEUES
      && forall i :: 0 <= i < MAX_QUEUES && queues[i].attached ==>
           && queues[i].index == i
           && i < region.numQueues
           && queues[i].position < region.queues[i].numMessages
    }

    constructor (region: Region, now: U64)
      requires region.Valid()
      ensures this.region == region && Valid()
      ensures sessionID == region.sessionID && heartbeat == region.heartbeat && lastHeartbeat == now
      ensures queues == seq(MAX_QUEUES, _ => DETACHED)
    {
      this.region := region;
      sessionID := region.sessionID;
      heartbeat := region.heartbeat;
      lastHeartbeat := now;
      queues := seq(MAX_QUEUES, _ => DETACHED);
    }

    /** lgmpClientInit. `clock` is the first clock reading (0 means the
        clock failed), `heartbeatBefore` the heartbeat read before the
        200 ms sleep, `region` the state after it, and `now` the clock
        reading taken on success. The checks run in the source's order. */
    static method Init(region: Region, clock: U64, heartbeatBefore: U32, now: U64)
      returns (status: Status, client: Client?)
      requires region.Layout()
      requires region.magic == PROTOCOL_MAGIC && region.version == PROTOCOL_VERSION ==> region.Valid()
      ensures status == ErrInvalidSize <==> region.size < HEADER_SIZE
      ensures status == ErrClockFailure <==> HEADER_SIZE <= region.size && clock == 0
      ensures status == ErrInvalidMagic <==>
        HEADER_SIZE <= region.size && clock != 0 && region.magic != PROTOCOL_MAGIC
      ensures status == ErrInvalidVersion <==>
        HEADER_SIZE <= region.size && clock != 0 && region.magic == PROTOCOL_MAGIC
        && region.version != PROTOCOL_VERSION
      ensures status == ErrInvalidSession <==>
        HEADER_SIZE <= region.size && clock != 0 && region.magic == PROTOCOL_MAGIC
        && region.version == PROTOCOL_VERSION && region.heartbeat == heartbeatBefore
      ensures status !in {ErrInvalidSize, ErrClockFailure, ErrInvalidMagic, ErrInvalidVersion, ErrInvalidSession}
        ==> status == Ok
      ensures status != Ok <==> client == null
      ensures status == Ok ==> client != null && fresh(client) && client.region == region && client.Valid()
      ensures status == Ok ==>
        client.sessionID == region.sessionID && client.heartbeat == region.heartbeat && client.lastHeartbeat == now
      ensures status == Ok ==> forall i :: 0 <= i < MAX_QUEUES ==> !client.queues[i].attached
    {
      client := null;
      if region.size < HEADER_SIZE {
        return ErrInvalidSize, client;
      }
      if clock == 0 {
        return ErrClockFailure, client;
      }
      if region.magic != PROTOCOL_MAGIC {
        return ErrInvalidMagic, client;
      }
      if region.version != PROTOCOL_VERSION {
        return ErrInvalidVersion, client;
      }
      // the host did not bump the heartbeat while we slept: it is not running
      if region.heartbeat == heartbeatBefore {
        return ErrInvalidSession, client;
      }
      client := new Client(region, now);
      status := Ok;
    }

    /** lgmpClientSessionValid: the session is gone once the host restarted
        (a new session id) or its heartbeat has been still for more than
        HEARTBEAT_TIMEOUT ms; a heartbeat that moved restarts the wait. */
    method SessionValid(now: U64) returns (valid: bool)
      requires Valid()
      modifies this`heartbeat, this`lastHeartbeat
      ensures Valid()
      ensures sessionID != region.sessionID ==> !valid && unchanged(this)
      ensures sessionID == region.sessionID && old(heartbeat) != region.heartbeat ==>
        valid && heartbeat == region.heartbeat && lastHeartbeat == now
      ensures sessionID == region.sessionID && old(heartbeat) == region.heartbeat ==>
        unchanged(this) && (valid <==> Elapsed(lastHeartbeat, now) <= HEARTBEAT_TIMEOUT)
    {
      // a new session id means the host was restarted
      if sessionID != region.sessionID {
        return false;
      }
      if heartbeat != region.heartbeat {
        lastHeartbeat := now;
        heartbeat := region.heartbeat;
        return true;
      }
      valid := !(Elapsed(lastHeartbeat, now) > HEARTBEAT_TIMEOUT);
    }

    /** lgmpClientSubscribe: find the first queue of type `queueID`, take the
        lowest free subscriber id on it, and point the queue's handle at the
        slot the host writes next, so only later messages are seen. */
    method Subscribe(queueID: U32) returns (status: Status, index: nat)
      requires Valid()
      modifies this`queues, region`queues
      ensures Valid()
      ensures status == ErrNoSuchQueue <==>
        forall j :: 0 <= j < region.numQueues ==> old(region.queues[j].queueType) != queueID
      ensures status == ErrQueueFull <==>
        status != ErrNoSuchQueue && index < region.numQueues
        && forall k: SubId :: k in old(region.queues[index].subs)
      ensures status !in {ErrNoSuchQueue, ErrQueueFull} ==> status == Ok
      ensures status != Ok ==> unchanged(this) && unchanged(region)
      ensures status != ErrNoSuchQueue ==>
        index < region.numQueues && old(region.queues[index].queueType) == queueID
        && forall j :: 0 <= j < index ==> old(region.queues[j].queueType) != queueID
      ensures status == Ok ==>
        var id := queues[index].id;
        && id !in old(region.queues[index].subs)
        && (forall k: SubId :: k < id ==> k in old(region.queues[index].subs))
        && region.queues == old(region.queues)[index := old(region.queues[index]).(subs := old(region.queues[index].subs) + {id})]
        && queues == old(queues)[index := ClientQueue(true, index, id, region.queues[index].position)]
    {
      index := FindQueue(region.queues, region.numQueues, queueID);
      if index == region.numQueues {
        return ErrNoSuchQueue, index;
      }
      var hq := region.queues[index];
      // the lowest id whose subscribed bit is clear
      var id := LowestFree(hq.subs);
      if id == 32 {
        return ErrQueueFull, index;
      }
      region.queues := region.queues[index := hq.(subs := hq.subs + {id})];
      queues := queues[index := ClientQueue(true, index, id, hq.position)];
      status := Ok;
    }

    /** lgmpClientUnsubscribe: refused while the host has the subscriber
        flagged bad; otherwise release the id and clear the handle. */
    method Unsubscribe(index: nat) returns (status: Status)
      requires Valid() && index < MAX_QUEUES && queues[index].attached
      modifies this`queues, region`queues
      ensures Valid()
      ensures status == ErrQueueTimeout <==> old(queues[index].id) in old(region.queues[index].badSubs)
      ensures status != ErrQueueTimeout ==> status == Ok
      ensures status != Ok ==> unchanged(this) && unchanged(region)
      ensures status == Ok ==>
        && region.queues == old(region.queues)[index := old(region.queues[index]).(subs := old(region.queues[index].subs) - {old(queues[index].id)})]
        && queues == old(queues)[index := DETACHED]
    {
      var hq := region.queues[index];
      var id := queues[index].id;
      if id in hq.badSubs {
        return ErrQueueTimeout;
      }
      region.queues := region.queues[index := hq.(subs := hq.subs - {id})];
      queues := queues[index := DETACHED];
      status := Ok;
    }

    /** lgmpClientProcess: report the message at the handle's read cursor,
        unless the subscriber was flagged bad or dropped, or it has caught up
        with the host's write cursor. Reading changes nothing. */
    method Process(index: nat) returns (status: Status, msg: Delivered)
      requires Valid() && index < MAX_QUEUES && queues[index].attached
      ensures status == ErrQueueTimeout <==> queues[index].id in region.queues[index].badSubs
      ensures status == ErrQueueUnsubscribed <==>
        queues[index].id !in region.queues[index].badSubs && queues[index].id !in region.queues[index].subs
      ensures status == ErrQueueEmpty <==>
        queues[index].id in region.queues[index].subs - region.queues[index].badSubs
        && region.queues[index].position == queues[index].position
      ensures status !in {ErrQueueTimeout, ErrQueueUnsubscribed, ErrQueueEmpty} ==> status == Ok
      ensures status == Ok ==>
        var slot := region.rings[index][queues[index].position];
        msg == Delivered(slot.msgType, slot.size, slot.offset)
    {
      msg := Delivered(0, 0, 0);
      var queue := queues[index];
      var hq := region.queues[index];
      if queue.id in hq.badSubs {
        return ErrQueueTimeout, msg;
      }
      if queue.id !in hq.subs {
        return ErrQueueUnsubscribed, msg;
      }
      if hq.position == queue.position {
        return ErrQueueEmpty, msg;
      }
      var slot := region.rings[index][queue.position];
      msg := Delivered(slot.msgType, slot.size, slot.offset);
      status := Ok;
    }

    /** lgmpClientMessageDone: under the same checks as Process, clear this
        subscriber's pending bit on the message at the read cursor and move
        the cursor to the next slot. */
    method MessageDone(index: nat) returns (status: Status)
      requires Valid() && index < MAX_QUEUES && queues[index].attached
      modifies this`queues, region`rings
      ensures Valid()
      ensures status == ErrQueueTimeout <==> queues[index].id in region.queues[index].badSubs
      ensures status == ErrQueueUnsubscribed <==>
        queues[index].id !in region.queues[index].badSubs && queues[index].id !in region.queues[index].subs
      ensures status == ErrQueueEmpty <==>
        queues[index].id in region.queues[index].subs - region.queues[index].badSubs
        && region.queues[index].position == old(queues[index].position)
      ensures status !in {ErrQueueTimeout, ErrQueueUnsubscribed, ErrQueueEmpty} ==> status == Ok
      ensures status != Ok ==> unchanged(this) && unchanged(region)
      ensures status == Ok ==>
        var pos := old(queues[index].position);
        && region.rings == old(region.rings)[index := ClearPending(old(region.rings[index]), pos, queues[index].id)]
        && queues == old(queues)[index := old(queues[index]).(position := Advance(pos, region.queues[index].numMessages))]
    {
      var queue := queues[index];
      var hq := region.queues[index];
      if queue.id in hq.badSubs {
        return ErrQueueTimeout;
      }
      if queue.id !in hq.subs {
        return ErrQueueUnsubscribed;
      }
      if hq.position == queue.position {
        return ErrQueueEmpty;
      }
      // this subscriber no longer owes the slot an acknowledgement
      region.rings := region.rings[index := ClearPending(region.rings[index], queue.position, queue.id)];
      var position := if queue.position + 1 == hq.numMessages then 0 else queue.position + 1;
      queues := queues[index := queue.(position := position)];
      status := Ok;
    }
  }
}
