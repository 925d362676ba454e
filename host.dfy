/** The host engine (lgmp/src/host.c): initialising the region, creating
    queues, allocating payload memory, posting messages, and the maintenance
    tick. A queue handle (LGMPQueue) is modelled by its index in the
    directory; `now` is the millisecond clock reading the source takes. */
module HostEngine {
  import opened Layout
  import opened Arena
  import opened Ring

  /** The loop of the tick that gives every newly flagged-bad subscriber the
      reap deadline `deadline`. */
  method ArmTimeouts(timeout: seq<nat>, newBadSubs: Mask, deadline: nat) returns (r: seq<nat>)
    requires |timeout| == 32
    ensures |r| == 32
    ensures forall k: SubId :: r[k] == if k in newBadSubs then deadline else timeout[k]
  {
    r := timeout;
    for id := 0 to 32
      invariant |r| == 32
      invariant forall k :: 0 <= k < id ==> r[k] == if k in newBadSubs then deadline else timeout[k]
      invariant forall k :: id <= k < 32 ==> r[k] == timeout[k]
    {
      var k: SubId := id;
      if k in newBadSubs {
        r := r[k := deadline];
      }
    }
  }

  /** The loop of the tick that collects the flagged-bad subscribers whose
      reap deadline has passed. */
  method CollectExpired(badSubs: Mask, timeout: seq<nat>, now: nat) returns (reap: Mask)
    requires |timeout| == 32
    ensures forall k: SubId :: k in reap <==> k in badSubs && now > timeout[k]
  {
    reap := {};
    for id := 0 to 32
      invariant forall k: SubId :: k in reap <==> k < id && k in badSubs && now > timeout[k]
    {
      var k: SubId := id;
      if k in badSubs && now > timeout[k] {
        reap := reap + {k};
      }
    }
  }

  /** First part of the tick: when the head message is overdue and still
      waited on by a subscriber not yet flagged bad, flag every subscribed
      laggard bad, arm its reap deadline, and stop waiting on the message. */
  method ExpireHead(q: QueueState, now: nat) returns (r: QueueState)
    requires Inv(q)
    ensures r == Expire(q, now)
  {
    var hq := q.desc;
    var queue := q.local;
    var ring := q.ring;
    if queue.count > 0 {
      // only a queue holding messages has a head to examine
      var msg := ring[queue.start];
      if msg.pendingSubs - hq.badSubs != {} && now > queue.msgTimeout {
        var newBadSubs := hq.subs * msg.pendingSubs;
        hq := hq.(badSubs := hq.badSubs + newBadSubs);
        if newBadSubs != {} {
          var timeout := ArmTimeouts(queue.timeout, newBadSubs, now + MAX_QUEUE_TIMEOUT);
          assert timeout == SetTimeouts(queue.timeout, newBadSubs, now + MAX_QUEUE_TIMEOUT);
          queue := queue.(timeout := timeout);
        }
        ring := ring[queue.start := msg.(pendingSubs := {})];
      }
    }
    r := QueueState(hq, ring, queue);
  }

  /** Second part of the tick: retire the head message once no subscriber
      that is not flagged bad still waits on it. */
  method RetireHead(q: QueueState, now: nat) returns (r: QueueState)
    requires Inv(q)
    ensures r == Retire(q, now)
  {
    var queue := q.local;
    if queue.count > 0 && q.ring[queue.start].pendingSubs - q.desc.badSubs == {} {
      // no subscriber in good standing still owes the head: drop it
      var start := if queue.start + 1 == q.desc.numMessages then 0 else queue.start + 1;
      var previous := queue.count;
      queue := queue.(start := start, count := previous - 1);
      if previous != 0 {
        queue := queue.(msgTimeout := now + MAX_MESSAGE_AGE);
      }
    }
    r := q.(local := queue);
  }

  /** Last part of the tick: unsubscribe the flagged-bad subscribers whose
      reap deadline has passed, freeing their ids. */
  method ReapExpired(q: QueueState, now: nat) returns (r: QueueState)
    requires Inv(q)
    ensures r == Reap(q, now)
  {
    var hq := q.desc;
    if hq.badSubs != {} {
      var reap := CollectExpired(hq.badSubs, q.local.timeout, now);
      assert reap == Expired(hq.badSubs, q.local.timeout, now);
      if reap != {} {
        hq := hq.(badSubs := hq.badSubs - reap, subs := hq.subs - reap);
      }
    }
    r := q.(desc := hq);
  }

  /** The body of the queue loop of lgmpHostProcess, on one queue. */
  method TickQueue(q: QueueState, now: nat) returns (r: QueueState)
    requires Inv(q)
    ensures r == Tick(q, now)
  {
    r := ExpireHead(q, now);
    r := RetireHead(r, now);
    r := ReapExpired(r, now);
  }

  class Host {
    const region: Region
    const size: nat
    var avail: nat
    var nextFree: nat
    var started: bool
    /** The host-only half of each queue of the directory. */
    var queues: seq<HostQueue>
    /** Every block the allocator has handed out, in order. */
    ghost var blocks: seq<Block>

    /** The slot array of queue `i`, as carved from the region. */
    function RingBlock(i: nat): Block
      reads region`queues, region`rings
      requires region.Layout() && i < MAX_QUEUES
    {
      Block(region.queues[i].messagesOffset, MESSAGE_SIZE * region.queues[i].numMessages)
    }

    /** Queue `i` as a value: shared descriptor, slot array and host side. */
    function QueueAt(i: nat): QueueState
      reads this`queues, region`queues, region`rings
      requires region.Layout() && |queues| == MAX_QUEUES && i < MAX_QUEUES
    {
      QueueState(region.queues[i], region.rings[i], queues[i])
    }

    ghost predicate Valid()
      reads this, region`numQueues, region`queues, region`rings
    {
      && region.Valid()
      && size == region.size
      && |queues| == MAX_QUEUES
      && (forall i :: 0 <= i < MAX_QUEUES ==> |queues[i].timeout| == 32)
      && nextFree + avail == size
      && Tiles(blocks, HEADER_SIZE, nextFree)
      && (forall i :: 0 <= i < region.numQueues ==> Inv(QueueAt(i)) && RingBlock(i) in blocks)
    }

    constructor (region: Region)
      requires region.Valid() && region.numQueues == 0 && HEADER_SIZE <= region.size
      ensures this.region == region && Valid()
      ensures size == region.size && nextFree == HEADER_SIZE && avail == region.size - HEADER_SIZE
      ensures !started && blocks == []
    {
      this.region := region;
      size := region.size;
      avail := region.size - HEADER_SIZE;
      nextFree := HEADER_SIZE;
      started := false;
      queues := seq(MAX_QUEUES, _ => HostQueue(0, 0, 0, 0, seq(32, _ => 0)));
      blocks := [];
    }

    /** lgmpHostInit: refuse a region smaller than the header; otherwise start
        the allocator just past the header, pick a session id different from
        the one the region held, and write the header's constant fields. */
    static method Init(region: Region) returns (status: Status, host: Host?)
      requires region.Layout()
      modifies region
      ensures status == ErrInvalidSize <==> region.size < HEADER_SIZE
      ensures status != ErrInvalidSize ==> status == Ok
      ensures status != Ok ==> host == null && unchanged(region)
      ensures status == Ok ==> host != null && fresh(host) && host.region == region && host.Valid()
      ensures status == Ok ==> host.nextFree == HEADER_SIZE && host.avail == region.size - HEADER_SIZE
      ensures status == Ok ==> host.nextFree + host.avail == region.size && !host.started
      ensures status == Ok ==> region.sessionID != old(region.sessionID)
      ensures status == Ok ==> region.magic == PROTOCOL_MAGIC && region.version == PROTOCOL_VERSION
      ensures status == Ok ==> region.heartbeat == 0 && region.caps == 0 && region.numQueues == 0
      ensures region.queues == old(region.queues) && region.rings == old(region.rings)
    {
      if region.size < HEADER_SIZE {
        return ErrInvalidSize, null;
      }
      // the source draws rand() until the value differs from the old one
      ghost var other: U32 := if region.sessionID == 0 then 1 else 0;
      assert other != region.sessionID;
      var sessionID: U32 :| sessionID != region.sessionID;
      region.sessionID := sessionID;
      region.magic := PROTOCOL_MAGIC;
      region.heartbeat := 0;
      region.version := PROTOCOL_VERSION;
      region.caps := 0;
      region.numQueues := 0;
      host := new Host(region);
      status := Ok;
    }

    /** Carves the slot array of queue `q` at the free offset and enters `q`
        at the next directory entry. */
    method Append(q: QueueState)
      requires Valid() && region.numQueues < MAX_QUEUES && Inv(q)
      requires q.desc.messagesOffset == nextFree && MESSAGE_SIZE * q.desc.numMessages <= avail
      modifies this`queues, this`nextFree, this`avail, this`blocks
      modifies region`queues, region`rings, region`numQueues
      ensures Valid()
      ensures region.numQueues == old(region.numQueues) + 1
      ensures QueueAt(old(region.numQueues)) == q
      ensures forall j :: 0 <= j < MAX_QUEUES && j != old(region.numQueues) ==> QueueAt(j) == old(QueueAt(j))
      ensures Carve(old(Arena(nextFree, avail)), MESSAGE_SIZE * q.desc.numMessages)
        == Some((RingBlock(old(region.numQueues)), Arena(nextFree, avail)))
      ensures blocks == old(blocks) + [RingBlock(old(region.numQueues))]
    {
      var index := region.numQueues;
      var needed := MESSAGE_SIZE * q.desc.numMessages;
      region.queues := region.queues[index := q.desc];
      region.rings := region.rings[index := q.ring];
      queues := queues[index := q.local];
      region.numQueues := region.numQueues + 1;
      TilesAppend(blocks, HEADER_SIZE, nextFree, needed);
      blocks := blocks + [Block(nextFree, needed)];
      avail := avail - needed;
      nextFree := nextFree + needed;
      forall j | 0 <= j < region.numQueues
        ensures Inv(QueueAt(j)) && RingBlock(j) in blocks
      {
        if j != index {
          assert QueueAt(j) == old(QueueAt(j)) && RingBlock(j) == old(RingBlock(j));
        }
      }
      assert region.Valid();
    }

    /** lgmpHostAddQueue: refuse once started, when the directory is full, or
        when the region cannot hold `numMessages + 1` slots; otherwise carve
        the slot array, and set up an empty queue at the next directory entry. */
    method AddQueue(queueType: U32, numMessages: U32, now: nat) returns (status: Status, index: nat)
      requires Valid()
      requires numMessages < 0xFFFF_FFFF
      modifies this`queues, this`nextFree, this`avail, this`blocks
      modifies region`queues, region`rings, region`numQueues
      ensures Valid()
      ensures status == ErrHostStarted <==> started
      ensures status == ErrNoQueues <==> !started && old(region.numQueues) == MAX_QUEUES
      ensures status == ErrNoSharedMem <==>
        !started && old(region.numQueues) < MAX_QUEUES && old(avail) < MESSAGE_SIZE * (numMessages + 1)
      ensures status !in {ErrHostStarted, ErrNoQueues, ErrNoSharedMem} ==> status == Ok
      ensures status != Ok ==> unchanged(this) && unchanged(region)
      ensures status == Ok ==> index == old(region.numQueues) && region.numQueues == index + 1
      ensures status == Ok ==>
        region.queues[index] == QueueDesc(queueType, numMessages + 1, 0, {}, {}, 0, old(nextFree))
      ensures status == Ok ==>
        queues[index] == HostQueue(0, 0, 0, now + MAX_MESSAGE_AGE, old(queues[index].timeout))
      ensures status == Ok ==> Outstanding(QueueAt(index)) == []
      ensures status == Ok ==>
        Carve(old(Arena(nextFree, avail)), MESSAGE_SIZE * (numMessages + 1))
          == Some((RingBlock(index), Arena(nextFree, avail)))
      ensures status == Ok ==> blocks == old(blocks) + [RingBlock(index)]
      ensures status == Ok ==> forall j :: 0 <= j < MAX_QUEUES && j != index ==> QueueAt(j) == old(QueueAt(j))
    {
      index := 0;
      if started {
        return ErrHostStarted, index;
      }
      if region.numQueues == MAX_QUEUES {
        return ErrNoQueues, index;
      }
      // a capacity of n messages takes n + 1 slots
      var n := numMessages + 1;
      if avail < MESSAGE_SIZE * n {
        return ErrNoSharedMem, index;
      }
      index := region.numQueues;
      var desc := QueueDesc(queueType, n, 0, {}, {}, 0, nextFree);
      // the slots keep whatever bytes the region held there
      ghost var blank := seq(n, _ => Message(0, 0, 0, {}));
      assert |blank| == n;
      var slots: seq<Message> :| |slots| == n;
      var local := HostQueue(0, 0, 0, now + MAX_MESSAGE_AGE, queues[index].timeout);
      Append(QueueState(desc, slots, local));
      status := Ok;
    }

    /** lgmpHostMemAlloc: carve `bytes` bytes of payload memory, or refuse
        when fewer remain. */
    method MemAlloc(bytes: U32) returns (status: Status, mem: Memory)
      requires Valid()
      modifies this`nextFree, this`avail, this`blocks
      ensures Valid()
      ensures status == ErrNoSharedMem <==> bytes > old(avail)
      ensures status != ErrNoSharedMem ==> status == Ok
      ensures status != Ok ==> unchanged(this)
      ensures status == Ok ==> mem == Memory(old(nextFree), bytes)
      ensures status == Ok ==>
        Carve(old(Arena(nextFree, avail)), bytes) == Some((Block(mem.offset, mem.size), Arena(nextFree, avail)))
      ensures status == Ok ==> blocks == old(blocks) + [Block(mem.offset, mem.size)]
      ensures status == Ok ==> forall b :: b in old(blocks) ==> End(b) <= mem.offset
    {
      mem := Memory(0, 0);
      if bytes > avail {
        return ErrNoSharedMem, mem;
      }
      mem := Memory(nextFree, bytes);
      TilesDisjoint(blocks, HEADER_SIZE, nextFree);
      TilesAppend(blocks, HEADER_SIZE, nextFree, bytes);
      blocks := blocks + [Block(nextFree, bytes)];
      nextFree := nextFree + bytes;
      avail := avail - bytes;
      status := Ok;
    }

    /** lgmpHostMemFree: releases only the host-local handle; the bytes are
        never given back to the allocator. */
    method MemFree(mem: Memory)
      requires Valid()
      ensures nextFree == old(nextFree) && avail == old(avail)
    {
    }

    /** Writes queue `index` back as the value `q`, which keeps the ring
        invariant and the queue's slot array. */
    method Store(index: nat, q: QueueState)
      requires Valid() && index < region.numQueues && Inv(q)
      requires q.desc.numMessages == region.queues[index].numMessages
      requires q.desc.messagesOffset == region.queues[index].messagesOffset
      modifies this`queues, region`queues, region`rings
      ensures Valid()
      ensures QueueAt(index) == q
      ensures forall j :: 0 <= j < MAX_QUEUES && j != index ==> QueueAt(j) == old(QueueAt(j))
    {
      region.queues := region.queues[index := q.desc];
      region.rings := region.rings[index := q.ring];
      queues := queues[index := q.local];
      forall j | 0 <= j < region.numQueues
        ensures Inv(QueueAt(j)) && RingBlock(j) in blocks
      {
        if j != index {
          assert QueueAt(j) == old(QueueAt(j)) && RingBlock(j) == old(RingBlock(j));
        }
      }
      assert region.Valid();
    }

    /** lgmpHostPost: the queue step Ring.Post, performed on the queue's
        shared descriptor, slot array and host side. */
    method Post(index: nat, msgType: U32, payload: Memory, now: nat) returns (status: Status)
      requires Valid() && index < region.numQueues
      modifies this`queues, region`queues, region`rings
      ensures Valid()
      ensures (status, QueueAt(index)) == Ring.Post(old(QueueAt(index)), msgType, payload, now)
      ensures forall j :: 0 <= j < MAX_QUEUES && j != index ==> QueueAt(j) == old(QueueAt(j))
    {
      var q := QueueAt(index);
      var hq := q.desc;
      var queue := q.local;
      var ring := q.ring;
      // one slot always stays empty, so a full ring is never mistaken for an empty one
      if queue.count == hq.numMessages - 1 {
        return ErrQueueFull;
      }
      var msg := Message(msgType, payload.size, payload.offset, hq.subs - hq.badSubs);
      ring := ring[queue.position := msg];
      if queue.count == 0 {
        queue := queue.(msgTimeout := now + MAX_MESSAGE_AGE);
      }
      queue := queue.(count := queue.count + 1);
      queue := queue.(position := if queue.position + 1 == hq.numMessages then 0 else queue.position + 1);
      hq := hq.(position := if hq.position == hq.numMessages - 1 then 0 else hq.position + 1);
      status := Ok;
      assert (status, QueueState(hq, ring, queue)) == Ring.Post(q, msgType, payload, now);
      Store(index, QueueState(hq, ring, queue));
    }

    /** One iteration of the queue loop of lgmpHostProcess: the queue step
        Ring.Tick, performed on the queue's shared descriptor, slot array and
        host side. */
    method ProcessQueue(index: nat, now: nat)
      requires Valid() && index < region.numQueues
      modifies this`queues, region`queues, region`rings
      ensures Valid()
      ensures QueueAt(index) == Tick(old(QueueAt(index)), now)
      ensures forall j :: 0 <= j < MAX_QUEUES && j != index ==> QueueAt(j) == old(QueueAt(j))
    {
      var q := TickQueue(QueueAt(index), now);
      Store(index, q);
    }

    /** The queue loop of lgmpHostProcess: every created queue takes one
        tick, in directory order. */
    method ProcessQueues(now: nat)
      requires Valid()
      modifies this`queues, region`queues, region`rings
      ensures Valid()
      ensures forall i :: 0 <= i < region.numQueues ==> QueueAt(i) == Tick(old(QueueAt(i)), now)
      ensures forall i :: region.numQueues <= i < MAX_QUEUES ==> QueueAt(i) == old(QueueAt(i))
    {
      var i: nat := 0;
      while i < region.numQueues
        invariant Valid()
        invariant i <= region.numQueues
        invariant forall j :: 0 <= j < i ==> QueueAt(j) == Tick(old(QueueAt(j)), now)
        invariant forall j :: i <= j < MAX_QUEUES ==> QueueAt(j) == old(QueueAt(j))
      {
        ProcessQueue(i, now);
        i := i + 1;
      }
    }

    /** lgmpHostProcess: bump the heartbeat (a uint32, so it wraps) and run
        the tick on every queue of the directory. Never fails. */
    method Process(now: nat) returns (status: Status)
      requires Valid()
      modifies this`queues, region`queues, region`rings, region`heartbeat
      ensures Valid()
      ensures status == Ok
      ensures region.heartbeat == (old(region.heartbeat) + 1) % U32_MODULUS
      ensures forall i :: 0 <= i < region.numQueues ==> QueueAt(i) == Tick(old(QueueAt(i)), now)
      ensures forall i :: region.numQueues <= i < MAX_QUEUES ==> QueueAt(i) == old(QueueAt(i))
    {
      region.heartbeat := (region.heartbeat + 1) % U32_MODULUS;
      ProcessQueues(now);
      status := Ok;
    }
  }
}
