/** The shared-memory layout of the Looking Glass Memory Protocol (LGMP):
    protocol constants, status codes, the message slot and queue descriptor
    records, and the region object that host and subscribers both map.

    A 32-bit subscriber mask is modelled as the set of subscriber ids (0..31)
    whose bit is set: `a & b` is `a * b`, `a | b` is `a + b`, `a & ~b` is
    `a - b`, `1 << id` is `{id}` and `a != 0` is `a != {}`. */
module Layout {

  const PROTOCOL_MAGIC: U32 := 0x504d474c
  const PROTOCOL_VERSION: U32 := 1
  const MAX_QUEUES: nat := 5

  /** sizeof(struct LGMPHeaderMessage): four uint32 fields. */
  const MESSAGE_SIZE: nat := 16
  /** sizeof(struct LGMPHeaderQueue): eight uint32 fields. */
  const QUEUE_DESC_SIZE: nat := 32
  /** sizeof(struct LGMPHeader): six uint32 fields and the queue directory. */
  const HEADER_SIZE: nat := 6 * 4 + MAX_QUEUES * QUEUE_DESC_SIZE

  /** A head message older than this (ms) is force-completed. */
  const MAX_MESSAGE_AGE: nat := 150
  /** A subscriber flagged bad is reaped this long (ms) after being flagged. */
  const MAX_QUEUE_TIMEOUT: nat := 10000
  /** A subscriber considers the host dead after this long (ms) without a heartbeat. */
  const HEARTBEAT_TIMEOUT: nat := 200

  const U32_MODULUS: nat := 0x1_0000_0000
  const U64_MODULUS: nat := 0x1_0000_0000_0000_0000

  type U32 = x: int | 0 <= x < 0x1_0000_0000

  /** A millisecond clock reading (lgmpGetClockMS returns a uint64_t). */
  type U64 = x: int | 0 <= x < 0x1_0000_0000_0000_0000

  /** A subscriber slot: one bit of a queue's 32-bit subscriber masks. */
  type SubId = k: int | 0 <= k < 32

  type Mask = set<SubId>

  datatype Option<T> = None | Some(value: T)

  /** LGMP_STATUS, plus the clock failure code that the client returns. */
  datatype Status =
    | Ok
    | ErrInvalidArgument
    | ErrInvalidSize
    | ErrInvalidSession
    | ErrNoMem
    | ErrNoSharedMem
    | ErrHostStarted
    | ErrNoQueues
    | ErrQueueFull
    | ErrQueueEmpty
    | ErrQueueUnsubscribed
    | ErrQueueTimeout
    | ErrInvalidMagic
    | ErrInvalidVersion
    | ErrNoSuchQueue
    | ErrClockFailure

  /** One slot of a queue's message ring (struct LGMPHeaderMessage). */
  datatype Message = Message(msgType: U32, size: U32, offset: nat, pendingSubs: Mask)

  /** A queue descriptor of the header's directory (struct LGMPHeaderQueue). */
  datatype QueueDesc = QueueDesc(
    queueType: U32,
    numMessages: U32,
    lock: U32,
    subs: Mask,
    badSubs: Mask,
    position: nat,
    messagesOffset: nat)

  /** A payload allocation (struct LGMPMemory): where it is and how long. */
  datatype Memory = Memory(offset: nat, size: U32)

  /** The shared descriptor invariant: the slot array has `numMessages` slots,
      the write cursor is inside it, and every flagged-bad subscriber is also
      subscribed. */
  predicate QueueWellFormed(d: QueueDesc, ring: seq<Message>)
  {
    && d.numMessages >= 1
    && |ring| == d.numMessages
    && d.position < d.numMessages
    && d.badSubs <= d.subs
  }

  /** The ring `ring` after subscriber `id` acknowledged the message in
      `slot`: that slot's pending bit for `id` is cleared, nothing else moves. */
  function ClearPending(ring: seq<Message>, slot: nat, id: SubId): (r: seq<Message>)
    requires slot < |ring|
    ensures |r| == |ring|
    ensures r[slot].pendingSubs == ring[slot].pendingSubs - {id}
    ensures r[slot] == ring[slot].(pendingSubs := r[slot].pendingSubs)
    ensures forall i :: 0 <= i < |ring| && i != slot ==> r[i] == ring[i]
  {
    ring[slot := ring[slot].(pendingSubs := ring[slot].pendingSubs - {id})]
  }

  /** The shared memory region: the header (struct LGMPHeader) and, for each
      queue of the directory, the slot array that lives at its messagesOffset.
      `size` is the mapped size passed to both init functions. */
  class Region {
    const size: nat
    var magic: U32
    var version: U32
    var sessionID: U32
    var heartbeat: U32
    var caps: U32
    var numQueues: U32
    var queues: seq<QueueDesc>
    var rings: seq<seq<Message>>

    /** The fixed shape of the header: the directory has MAX_QUEUES entries. */
    predicate Layout()
      reads this`queues, this`rings
    {
      |queues| == MAX_QUEUES && |rings| == MAX_QUEUES
    }

    /** What every party may rely on once a host has initialised the region:
        no more than MAX_QUEUES queues, and every created queue well formed. */
    predicate Valid()
      reads this`numQueues, this`queues, this`rings
    {
      && Layout()
      && numQueues <= MAX_QUEUES
      && forall i :: 0 <= i < numQueues ==> QueueWellFormed(queues[i], rings[i])
    }

    /** A freshly mapped, zero-filled region whose session word happens to
        hold `previousSession` (a region reused after a host restart). */
    constructor (size: nat, previousSession: U32)
      ensures this.size == size && sessionID == previousSession
      ensures magic == 0 && version == 0 && heartbeat == 0 && caps == 0 && numQueues == 0
      ensures Valid()
    {
      this.size := size;
      magic, version, sessionID, heartbeat, caps, numQueues := 0, 0, previousSession, 0, 0, 0;
      queues := seq(MAX_QUEUES, _ => QueueDesc(0, 0, 0, {}, {}, 0, 0));
      rings := seq(MAX_QUEUES, _ => []);
    }
  }
}
