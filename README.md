# LGMP — a verified model of the host engine and the subscriber side

The Looking Glass Memory Protocol (LGMP) passes messages from one host
process to up to 32 subscriber processes per queue through one shared
memory region. The region starts with a header: magic, version, session
id, heartbeat, capabilities, and a directory of at most five queues.
Behind the header lie the queues' message rings and the payload buffers,
carved by a bump allocator.

This project models two things:

- The host engine of `lgmp/src/host.c`: region initialisation, queue
  creation, payload allocation, posting, and the periodic maintenance tick.
  The tick does five things:
  - it bumps the heartbeat;
  - it force-completes overdue messages;
  - it flags lagging subscribers bad;
  - it retires a head message that no subscriber in good standing still
    has pending;
  - it reaps bad subscribers after their deadline.
- The subscriber side of `lgmp/src/client.c`: attaching, the session check,
  subscribing and unsubscribing, and reading and acknowledging messages.

The project is organised in these modules:

- `Layout` (`layout.dfy`) holds the constants, the status codes and the
  records of `lgmp/src/headers.h`. The shared region is a class, `Region`,
  whose fields the host and the subscribers update in place.
- `Arena` (`arena.dfy`) is the bump allocator that queue creation and
  payload allocation share. It proves that the blocks handed out tile the
  used part of the region, so they never overlap.
- `Ring` (`ring.dfy`) models one queue as a value: its shared descriptor,
  its slot array and its host-local read side. The functions `Post`,
  `Expire`, `Retire`, `Reap` and `Tick` are the specification of the
  host's work on a queue. The lemmas state the ring invariant and what a
  tick does to messages and subscribers.
- `HostEngine` (`host.dfy`) contains the class `Host`. Its methods are
  proved to perform exactly the `Ring` and `Arena` steps on the shared
  region. The loops of `lgmpHostProcess` are methods proved against the
  same specification.
- `Subscriber` (`client.dfy`) contains the class `Client`, which works on
  the same `Region` object, and the two search loops of
  `lgmpClientSubscribe`.
- `Scenarios` (`scenarios.dfy`) drives both sides through the protocol's
  usage scenarios.

Subscriber masks are 32-bit words in the source. Here they are sets of
subscriber ids in 0..31:

| source | model |
|---|---|
| `a & b` | `a * b` |
| `a \| b` | `a + b` |
| `a & ~b` | `a - b` |
| `1 << id` | `{id}` |
| `a != 0` | `a != {}` |

Clock readings (`now`) are parameters. So is the heartbeat that the client
reads before it sleeps.

Behaviour of the code worth noting:

- Posting to a queue with no subscriber in good standing still succeeds.
  The message is written with an empty pending set, the count grows, and
  both write cursors move (lgmp/src/host.c:282-297). The first tick at
  which it is the head retires it (lgmp/src/host.c:181-190). `Ring.PostWithoutRecipientsStillAdvances` states this.
- When a head message expires, the newly flagged set is `subs & pendingSubs`
  (lgmp/src/host.c:164). This includes subscribers that are already bad, so
  their reap deadline is re-armed to `now + 10000` (lgmp/src/host.c:168-174).
- After a completion, `msgTimeout` is always reset (lgmp/src/host.c:188-189).
  The guarding `__sync_fetch_and_sub` returns the old count, which is at
  least 1 there.
- Host initialisation reads no clock (lgmp/src/host.c:45-81). Only the
  client checks the clock (lgmp/src/client.c:54-56).

## Model

| member | source | states |
|---|---|---|
| Layout.Region.constructor | lgmp/src/headers.h:52-61 | a freshly mapped region: given size and old session word, other header words zero, no queues |
| Layout.ClearPending | lgmp/src/client.c:247-248 | acknowledging clears exactly the subscriber's own pending bit on one slot; every other slot and field is unchanged |
| Arena.Carve | lgmp/src/host.c:108-110 | carving fails exactly when more bytes are asked than remain; otherwise the block starts at the free offset, has the asked size, the free offset moves to its end, and `nextFree + avail` is preserved |
| Arena.TilesAppend | lgmp/src/host.c:132-133 | carving at the free offset extends the tiling of the used region by one block |
| Arena.TilesDisjoint | lgmp/src/host.c:239-240 | blocks that tile a range lie inside it, and each starts no earlier than every earlier one ends |
| Arena.CarveAllTiles | lgmp/src/host.c:226-240 | any sequence of requests, failed ones skipped, yields blocks that tile the bytes between the old and new free offset, with `nextFree + avail` constant |
| Arena.CarveAllDisjoint | lgmp/include/lgmp/host.h:33-39 | allocations are permanent and never overlap; all lie inside the free space the allocator started with |
| Ring.Advance | lgmp/src/host.c:291-292 | the increment-and-wrap of a ring cursor equals `(i + 1) mod n` and stays in the ring |
| Ring.Post | lgmp/src/host.c:261-298 | refused with QueueFull exactly when `count == numMessages - 1`, then nothing changes; otherwise Ok, the outstanding messages gain the new message at the end, addressed to `subs - badSubs`; only the slot at the write cursor is written and every other slot is kept; the head deadline is set only if the queue was empty; the ring invariant holds; the read cursor and masks are untouched |
| Ring.Expire | lgmp/src/host.c:153-179 | an overdue head still pending for a subscriber in good standing: every subscribed pending id is flagged bad with deadline now + 10000, and the head's pending set is cleared; every other deadline, the head's type, size and offset, and every other slot are kept; otherwise nothing changes; bad grows only by subscribed pending ids |
| Ring.Retire | lgmp/src/host.c:181-190 | a head pending only for bad subscribers is dropped from the outstanding messages, count falls by one and the next deadline is now + 150; otherwise nothing changes |
| Ring.Reap | lgmp/src/host.c:193-215 | a subscriber stays bad iff it was bad and its deadline has not passed; it stays subscribed iff it was and was not reaped; nothing else changes |
| Ring.Tick | lgmp/src/host.c:146-216 | one tick keeps the ring invariant, only changes the masks of the descriptor, and never adds a subscriber |
| Ring.Acknowledge | lgmp/src/client.c:243-248 | an acknowledgement keeps the ring invariant and changes only the slot array |
| Ring.RetireShifts | lgmp/src/host.c:184-185 | moving the read cursor on drops exactly the oldest outstanding message |
| Ring.PostAppends | lgmp/src/host.c:265-297 | the slot at the write cursor is never an outstanding one, so writing it and advancing appends one message |
| Ring.TickDropsAtMostHead | lgmp/src/host.c:153-191 | a tick never rewrites or reorders outstanding messages: they stay as they are or lose the oldest |
| Ring.TickCompletesOverdueHead | lgmp/src/host.c:157-189 | an overdue head is completed by the next tick whatever its recipients did, and the next head gets a fresh 150 ms deadline |
| Ring.TickWaitsForHead | lgmp/src/host.c:157-190 | a head still pending for a subscriber in good standing and not overdue stays, with nothing of the read side changed |
| Ring.TickFlagsLaggard | lgmp/src/host.c:163-173 | while a subscriber in good standing still has the head pending, a subscribed recipient that has not acknowledged an overdue head becomes bad, stays subscribed, and gets deadline now + 10000 |
| Ring.TickFlagsOnlyLaggards | lgmp/src/host.c:157-165 | a subscriber newly bad after a tick was subscribed and pending on an overdue head |
| Ring.TickReapsExpired | lgmp/src/host.c:157-210 | a bad subscriber past its deadline loses both its bad and its subscribed bit unless the tick re-arms its deadline, which happens only when the head is overdue, still pending for a subscriber in good standing, and pending for it |
| Ring.TickRetiresAcknowledgedHead | lgmp/src/host.c:181-190 | a head no subscriber in good standing still has pending is retired by the next tick, whatever the time |
| Ring.LastAcknowledgementRetiresHead | lgmp/src/client.c:243-251 | the last acknowledgement from a subscriber in good standing lets the next tick retire the head and keep all later messages |
| Ring.AcknowledgeKeepsLater | lgmp/src/client.c:245-248 | acknowledging the head leaves every later outstanding message unchanged |
| Ring.AcknowledgementIsPrivate | lgmp/src/client.c:248 | a subscriber's acknowledgement never changes another subscriber's pending bit |
| Ring.PostWithoutRecipientsStillAdvances | lgmp/src/host.c:282-297 | posting into a ring that is not full with no subscriber in good standing succeeds, takes a slot with an empty pending set, and advances the write cursor |
| HostEngine.ArmTimeouts | lgmp/src/host.c:168-174 | the loop sets the deadline of exactly the newly bad ids and keeps every other deadline |
| HostEngine.CollectExpired | lgmp/src/host.c:196-201 | the loop collects exactly the bad ids whose deadline has passed |
| HostEngine.ExpireHead | lgmp/src/host.c:153-179 | the expiry part of the loop body performs `Ring.Expire` |
| HostEngine.RetireHead | lgmp/src/host.c:181-190 | the completion part of the loop body performs `Ring.Retire` |
| HostEngine.ReapExpired | lgmp/src/host.c:193-215 | the reaping part of the loop body performs `Ring.Reap` |
| HostEngine.TickQueue | lgmp/src/host.c:148-215 | the whole loop body performs `Ring.Tick` on one queue |
| HostEngine.Host.constructor | lgmp/src/host.c:59-66 | the host's allocator starts just past the header, `nextFree + avail == size`, not started, with no blocks |
| HostEngine.Host.Init | lgmp/src/host.c:45-81 | InvalidSize exactly when the region is smaller than the 184-byte header; otherwise a valid host with `nextFree = 184`, `avail = size - 184`; a session id different from the old one; magic and version written; heartbeat, caps and queue count zero |
| HostEngine.Host.Append | lgmp/src/host.c:112-133 | a queue entered at the next directory slot, its slot array carved from the allocator; other queues unchanged |
| HostEngine.Host.AddQueue | lgmp/src/host.c:93-136 | HostStarted, then NoQueues at five queues, then NoSharedMem when `avail < 16 * (n + 1)`, each changing nothing; otherwise an empty queue of `n + 1` slots at the old free offset, masks and cursors zero, head deadline now + 150; the allocator advances by exactly the carved block; other queues unchanged |
| HostEngine.Host.MemAlloc | lgmp/src/host.c:221-243 | NoSharedMem exactly when `size > avail`, changing nothing; otherwise the block at the old free offset, carved by the same policy as queues, lying after every earlier block; queues untouched |
| HostEngine.Host.MemFree | lgmp/src/host.c:245-253 | freeing a payload handle gives no bytes back |
| HostEngine.Host.Store | lgmp/src/host.c:146-151 | writing one queue back keeps the host invariant and changes no other queue |
| HostEngine.Host.Post | lgmp/src/host.c:261-298 | the queue afterwards and the status are those of `Ring.Post`; other queues are unchanged; the host invariant holds |
| HostEngine.Host.ProcessQueue | lgmp/src/host.c:146-216 | one iteration leaves its queue as `Ring.Tick` does and changes no other queue |
| HostEngine.Host.ProcessQueues | lgmp/src/host.c:146-216 | the queue loop leaves every created queue as `Ring.Tick` of its old state and every other directory entry unchanged |
| HostEngine.Host.Process | lgmp/src/host.c:138-219 | always Ok; the heartbeat increases by one modulo 2^32; every created queue becomes `Ring.Tick` of its old state, the others are unchanged |
| Subscriber.Elapsed | lgmp/src/client.c:116 | the elapsed time is the unsigned 64-bit difference: plain when the clock did not wrap, `now + 2^64 - last` when it did |
| Subscriber.LowestFree | lgmp/src/client.c:149-151 | the loop finds the lowest id not subscribed, or 32 exactly when every id is taken |
| Subscriber.FindQueue | lgmp/src/client.c:130-136 | the loop finds the first created queue with the wanted type, or reports there is none |
| Subscriber.Client.constructor | lgmp/src/client.c:76-83 | the client records the header's session and heartbeat and the clock, with every handle detached |
| Subscriber.Client.Init | lgmp/src/client.c:45-85 | the errors come in the source's order: InvalidSize, ClockFailure (zero clock), InvalidMagic, InvalidVersion, InvalidSession (heartbeat unchanged over the sleep); otherwise Ok with the header's session and heartbeat and every handle detached |
| Subscriber.Client.SessionValid | lgmp/src/client.c:97-120 | false on a new session id; a moved heartbeat is recorded with the time and is valid; otherwise nothing changes, and the session is valid iff at most 200 ms passed |
| Subscriber.Client.Subscribe | lgmp/src/client.c:122-169 | NoSuchQueue iff no created queue has the type; QueueFull iff the first matching queue has all 32 ids subscribed, changing nothing; otherwise the lowest free id is added, exactly that bit, and the handle reads from the host's write cursor |
| Subscriber.Client.Unsubscribe | lgmp/src/client.c:171-193 | QueueTimeout iff the subscriber is flagged bad, changing nothing; otherwise exactly its own subscribed bit is cleared and the handle detached |
| Subscriber.Client.Process | lgmp/src/client.c:195-223 | QueueTimeout, then QueueUnsubscribed, then QueueEmpty (read cursor at the host's write cursor), each exactly when its condition first holds; otherwise the type, size and offset of the slot at the read cursor; changes nothing |
| Subscriber.Client.MessageDone | lgmp/src/client.c:225-254 | the same checks in the same order, changing nothing on error; otherwise only the subscriber's own pending bit on that slot is cleared, and the read cursor advances modulo the ring size |
| Scenarios.PostIntoEmptyQueue | lgmp/src/host.c:270-290 | the first post into an empty queue with subscribers 0 and 1 makes the message the head, pending for both, with a deadline 150 ms after the post |
| Scenarios.OverdueTickFlagsSlowSubscriber | lgmp/src/host.c:157-190 | an overdue sole message pending only for subscriber 0 makes it bad with a deadline 10 s ahead and completes the message |
| Scenarios.SlowSubscriberIsFlaggedThenReaped | lgmp/src/host.c:153-215 | any empty queue of capacity 2 with subscribers 0 and 1, one message: an early tick changes nothing; subscriber 1 acknowledges; after 150 ms subscriber 0 is bad with a 10 s deadline and the message completes; after that deadline only subscriber 1 remains |
| Scenarios.ThirdPostWaitsForTick | test-host/src/main.c:86-95 | for any empty queue of capacity 2 with subscribers 0 and 1, the third back-to-back post is refused and changes nothing; after a tick completes the overdue head, the post succeeds |
| Scenarios.StartHost | lgmp/src/host.c:45-136 | a host initialised on a fresh region, with one created queue and one tick |
| Scenarios.Attach | lgmp/src/client.c:45-169 | a subscriber attaches to a live host's region and takes subscriber id 0 |
| Scenarios.PostOne | lgmp/src/host.c:221-298 | a payload allocated right after the ring and posted: the subscriber's queue holds one message of type 9 addressed to it, and the write cursor is at slot 1 |
| Scenarios.PostReadAcknowledge | lgmp/src/client.c:195-254 | a posted message is read by the subscriber with its type, size and offset, acknowledged, and retired by the next host tick |

## Left out

- Spinlocks and atomics (`__sync_*`, `atomic_*`) are plain sequential updates. Interleaving between the host and subscriber processes is not modelled.
- Clock readings and the client's 200 ms `usleep` are not modelled as such. `now`, the client's first clock reading and the heartbeat it read before sleeping are parameters.
- `rand()` in the session-id loop of host initialisation is a nondeterministic choice of a value different from the old one. The termination of the retry loop is not modelled.
- The `malloc` of the host, client and memory handles is not modelled, and neither is its `LGMP_ERR_NO_MEM` path. The handles themselves are indexes (a queue) or values (a payload).
- `lgmpHostFree`, `lgmpClientFree`, `lgmpHostMemPtr` and `lgmpStatusString` are not modelled. They hold no protocol logic.
- Raw pointers and byte copies are not modelled. The region is the header plus one slot sequence per queue, found at `messagesOffset`. Payload bytes are not modelled, only their offsets and sizes.
- The `printf` of the tick is not modelled.
- The host's `now` and deadlines are unbounded naturals. The wrap of the 64-bit millisecond clock is modelled only in the client's heartbeat check.
- The 32-bit truncation of `messagesOffset` and of a payload's offset is not modelled. Both are unbounded naturals.
- HostEngine.Host.AddQueue: it requires `numMessages < 2^32 - 1`, so that `numMessages + 1` cannot wrap to zero.
- HostEngine.Host.AddQueue: the new queue's slot contents and subscriber deadlines are arbitrary, because the source leaves them uninitialised.
- The `count` field of the shared queue descriptor is not modelled. Nothing reads or writes it. The count the host uses is host-local.
- Nothing sets the host's `started` flag. It is kept, so AddQueue's HostStarted error is modelled, but the transition to started is not part of the model.
- client.c reads three mask macros (`LGMP_SUBS_ON`, `LGMP_SUBS_BAD`, `LGMP_SUBS_SET`) and two fields (`queueID`, `udata`) that the headers do not define. The macros are modelled as the descriptor's `subs` and `badSubs` masks that host.c uses. The fields are modelled as the `type` fields of the queue descriptor and of the message slot.
- `LGMP_ERR_CLOCK_FAILURE` is returned by client.c but missing from the status enum. It is added as `ErrClockFailure`.
- Subscriber.Client.Init: it requires the region to have the header layout (five directory entries and five slot arrays). Only a region that passes the magic and version checks must also satisfy the invariant a host keeps (at most five queues, each well formed). A region with the right magic and version but a malformed directory is not modelled.
- HostEngine.Host.Post: the return value for success is Ok, because the source falls off the end of the function without a return statement.
- lgmp/src/host.c also calls `lgmpGetClock`, which does not exist; only `lgmpGetClockMS` does. The model takes `now` as a parameter either way.
