/** One queue of the host engine as a value: its shared descriptor, its slot
    array, and the host-local read side. The functions here are the steps the
    host performs on a queue (posting and the three parts of the maintenance
    tick); the host's methods are proved to perform exactly these steps.

    A ring of `numMessages` slots holds at most `numMessages - 1` outstanding
    messages: the write cursor `position` always equals `start + count` modulo
    `numMessages`, so the slot it points at is never an outstanding one. */
module Ring {
  import opened Layout

  /** The host-only fields of a queue (struct LGMPQueue): the write cursor, the
      read cursor `start`, the number of outstanding messages, the expiry time
      of the head message and the reap deadline of each subscriber. */
  datatype HostQueue = HostQueue(position: nat, start: nat, count: nat, msgTimeout: nat, timeout: seq<nat>)

  datatype QueueState = QueueState(desc: QueueDesc, ring: seq<Message>, local: HostQueue)

  /** The ring invariant the host keeps for every queue it created. */
  predicate Inv(q: QueueState)
  {
    && QueueWellFormed(q.desc, q.ring)
    && |q.local.timeout| == 32
    && q.local.position == q.desc.position
    && q.local.start < q.desc.numMessages
    && q.local.count < q.desc.numMessages
    && q.local.position == (q.local.start + q.local.count) % q.desc.numMessages
  }

  /** `if (++i == n) i = 0`: the next slot of a ring of `n` slots. */
  function Advance(i: nat, n: nat): (r: nat)
    requires i < n
    ensures r < n && r == (i + 1) % n
  {
    ModSmall(i + 1, n);
    if i + 1 == n then 0 else i + 1
  }

  /** The outstanding messages, oldest first. */
  function Outstanding(q: QueueState): (r: seq<Message>)
    requires Inv(q)
    ensures |r| == q.local.count
  {
    seq(q.local.count, i requires 0 <= i < q.local.count => q.ring[(q.local.start + i) % q.desc.numMessages])
  }

  function Head(q: QueueState): Message
    requires Inv(q)
  {
    q.ring[q.local.start]
  }

  /** Host step of lgmpHostPost: refuse when the ring holds numMessages - 1
      messages, otherwise write the slot at the write cursor, addressed to the
      subscribers that are subscribed and not flagged bad (even when there are
      none), and advance both copies of the write cursor. */
  function Post(q: QueueState, msgType: U32, payload: Memory, now: nat): (r: (Status, QueueState))
    requires Inv(q)
    ensures r.0 == ErrQueueFull <==> q.local.count == q.desc.numMessages - 1
    ensures r.0 == ErrQueueFull ==> r.1 == q
    ensures r.0 != ErrQueueFull ==> r.0 == Ok
    ensures Inv(r.1)
    ensures r.0 == Ok ==> Outstanding(r.1) == Outstanding(q) + [Message(msgType, payload.size, payload.offset, q.desc.subs - q.desc.badSubs)]
    ensures r.0 == Ok && q.local.count == 0 ==> r.1.local.msgTimeout == now + MAX_MESSAGE_AGE
    ensures r.0 == Ok && q.local.count > 0 ==> r.1.local.msgTimeout == q.local.msgTimeout
    ensures r.1.desc == q.desc.(position := r.1.desc.position) && r.1.local.timeout == q.local.timeout
    ensures r.1.local.start == q.local.start
    ensures r.0 == Ok ==> forall i :: 0 <= i < |q.ring| && i != q.local.position ==> r.1.ring[i] == q.ring[i]
  {
    var n := q.desc.numMessages;
    if q.local.count == n - 1 then (ErrQueueFull, q)
    else
      var msg := Message(msgType, payload.size, payload.offset, q.desc.subs - q.desc.badSubs);
      var r := QueueState(
        q.desc.(position := if q.desc.position == n - 1 then 0 else q.desc.position + 1),
        q.ring[q.local.position := msg],
        q.local.(
          count := q.local.count + 1,
          msgTimeout := if q.local.count == 0 then now + MAX_MESSAGE_AGE else q.local.msgTimeout,
          position := Advance(q.local.position, n)));
      PostAppends(q, r, msg);
      (Ok, r)
  }

  /** The reap deadlines after the subscribers `ids` are given deadline `t`. */
  function SetTimeouts(timeout: seq<nat>, ids: Mask, t: nat): (r: seq<nat>)
    requires |timeout| == 32
  {
    seq(32, k requires 0 <= k < 32 => if k in ids then t else timeout[k])
  }

  /** The flagged-bad subscribers whose reap deadline has passed. */
  function Expired(badSubs: Mask, timeout: seq<nat>, now: nat): Mask
    requires |timeout| == 32
  {
    set k: SubId | k in badSubs && now > timeout[k]
  }

  /** First part of the tick: when the head message is still pending for a
      subscriber that is not flagged bad and is older than its deadline, every
      subscribed recipient still pending is flagged bad with a reap deadline
      MAX_QUEUE_TIMEOUT ahead, and the head's pending set is cleared. */
  function Expire(q: QueueState, now: nat): (r: QueueState)
    requires Inv(q)
    ensures Inv(r)
    ensures r.local.start == q.local.start && r.local.count == q.local.count
    ensures r.local.msgTimeout == q.local.msgTimeout
    ensures |r.ring| == |q.ring|
    ensures r.desc == q.desc.(badSubs := r.desc.badSubs)
    ensures q.desc.badSubs <= r.desc.badSubs <= q.desc.badSubs + q.desc.subs * q.ring[q.local.start].pendingSubs
    ensures forall i :: 0 <= i < |q.ring| && i != q.local.start ==> r.ring[i] == q.ring[i]
    ensures r.ring[q.local.start] == Head(q).(pendingSubs := r.ring[q.local.start].pendingSubs)
    ensures forall k: SubId :: k !in q.desc.subs * Head(q).pendingSubs ==> r.local.timeout[k] == q.local.timeout[k]
    ensures q.local.count > 0 && Head(q).pendingSubs - q.desc.badSubs != {} && now > q.local.msgTimeout ==>
      && Head(r).pendingSubs == {}
      && (forall k :: k in q.desc.subs * Head(q).pendingSubs ==> k in r.desc.badSubs && r.local.timeout[k] == now + MAX_QUEUE_TIMEOUT)
    ensures !(q.local.count > 0 && Head(q).pendingSubs - q.desc.badSubs != {} && now > q.local.msgTimeout) ==> r == q
  {
    var head := Head(q);
    if q.local.count > 0 && head.pendingSubs - q.desc.badSubs != {} && now > q.local.msgTimeout then
      var newBadSubs := q.desc.subs * head.pendingSubs;
      QueueState(
        q.desc.(badSubs := q.desc.badSubs + newBadSubs),
        q.ring[q.local.start := head.(pendingSubs := {})],
        if newBadSubs != {} then
          q.local.(timeout := SetTimeouts(q.local.timeout, newBadSubs, now + MAX_QUEUE_TIMEOUT))
        else q.local)
    else q
  }

  /** Second part of the tick: a head message that no subscriber outside the
      bad set still has pending is finished; the read cursor moves past it and
      the next head gets a fresh deadline. */
  function Retire(q: QueueState, now: nat): (r: QueueState)
    requires Inv(q)
    ensures Inv(r)
    ensures r.desc == q.desc && r.ring == q.ring && r.local.timeout == q.local.timeout
    ensures q.local.count > 0 && Head(q).pendingSubs - q.desc.badSubs == {} ==>
      && r.local.count == q.local.count - 1
      && r.local.msgTimeout == now + MAX_MESSAGE_AGE
      && Outstanding(r) == Outstanding(q)[1..]
    ensures !(q.local.count > 0 && Head(q).pendingSubs - q.desc.badSubs == {}) ==> r == q
  {
    if q.local.count > 0 && Head(q).pendingSubs - q.desc.badSubs == {} then
      var n := q.desc.numMessages;
      var r := q.(local := q.local.(
        start := Advance(q.local.start, n),
        count := q.local.count - 1,
        msgTimeout := now + MAX_MESSAGE_AGE));
      RetireShifts(q, r);
      r
    else q
  }

  /** Third part of the tick: the flagged-bad subscribers whose reap deadline
      has passed are removed from both the bad and the subscribed set; no
      other subscriber changes state and nothing else changes. */
  function Reap(q: QueueState, now: nat): (r: QueueState)
    requires Inv(q)
    ensures Inv(r)
    ensures r.ring == q.ring && r.local == q.local
    ensures forall k: SubId :: (k in r.desc.badSubs <==> k in q.desc.badSubs && now <= q.local.timeout[k])
    ensures forall k: SubId :: (k in r.desc.subs <==> k in q.desc.subs && !(k in q.desc.badSubs && now > q.local.timeout[k]))
    ensures r.desc == q.desc.(subs := r.desc.subs, badSubs := r.desc.badSubs)
  {
    var reap := Expired(q.desc.badSubs, q.local.timeout, now);
    assert forall k: SubId :: k in q.desc.badSubs && now > q.local.timeout[k] ==> k in reap;
    if q.desc.badSubs != {} then
      if reap != {} then
        q.(desc := q.desc.(badSubs := q.desc.badSubs - reap, subs := q.desc.subs - reap))
      else q
    else q
  }

  /** The whole tick for one queue (the body of the loop of lgmpHostProcess). */
  function Tick(q: QueueState, now: nat): (r: QueueState)
    requires Inv(q)
    ensures Inv(r)
    ensures r.desc == q.desc.(subs := r.desc.subs, badSubs := r.desc.badSubs)
    ensures r.desc.subs <= q.desc.subs
  {
    Reap(Retire(Expire(q, now), now), now)
  }

  /** A subscriber's acknowledgement (lgmpClientMessageDone) as the host sees
      it: the subscriber's pending bit on one slot is cleared. */
  function Acknowledge(q: QueueState, slot: nat, id: SubId): (r: QueueState)
    requires Inv(q) && slot < q.desc.numMessages
    ensures Inv(r)
    ensures r.desc == q.desc && r.local == q.local
  {
    q.(ring := ClearPending(q.ring, slot, id))
  }

  /** A number below `2 * n` wraps at most once modulo `n`. */
  lemma ModSmall(a: nat, n: nat)
    requires 0 < n && a < 2 * n
    ensures a % n == if a < n then a else a - n
  {
  }

  /** Moving the read cursor one slot on drops exactly the oldest message. */
  lemma RetireShifts(q: QueueState, r: QueueState)
    requires Inv(q) && q.local.count > 0
    requires r.desc == q.desc && r.ring == q.ring
    requires r.local.start == Advance(q.local.start, q.desc.numMessages)
    requires r.local.count == q.local.count - 1
    ensures Inv(r.(local := r.local.(position := q.local.position, timeout := q.local.timeout)))
    ensures Inv(r) ==> Outstanding(r) == Outstanding(q)[1..]
  {
    var n := q.desc.numMessages;
    var s := q.local.start;
    ModSmall(s + q.local.count, n);
    ModSmall(r.local.start + r.local.count, n);
    if Inv(r) {
      forall i | 0 <= i < r.local.count
        ensures Outstanding(r)[i] == Outstanding(q)[i + 1]
      {
        ModSmall(r.local.start + i, n);
        ModSmall(s + i + 1, n);
      }
    }
  }

  /** Writing the slot at the write cursor and moving the cursor on appends
      one message: the slot written is never an outstanding one. */
  lemma PostAppends(q: QueueState, r: QueueState, msg: Message)
    requires Inv(q) && q.local.count < q.desc.numMessages - 1
    requires r.desc.numMessages == q.desc.numMessages
    requires QueueWellFormed(r.desc, r.ring) && |r.local.timeout| == 32
    requires r.ring == q.ring[q.local.position := msg]
    requires r.local.start == q.local.start && r.local.count == q.local.count + 1
    requires r.local.position == r.desc.position == Advance(q.local.position, q.desc.numMessages)
    ensures Inv(r)
    ensures Outstanding(r) == Outstanding(q) + [msg]
  {
    var n := q.desc.numMessages;
    var s := q.local.start;
    ModSmall(s + q.local.count, n);
    ModSmall(s + r.local.count, n);
    forall i | 0 <= i < r.local.count
      ensures Outstanding(r)[i] == (Outstanding(q) + [msg])[i]
    {
      ModSmall(s + i, n);
    }
  }

  /** A tick never rewrites or reorders the outstanding messages: it either
      leaves them as they are or drops the oldest one. */
  lemma TickDropsAtMostHead(q: QueueState, now: nat)
    requires Inv(q)
    ensures var r := Tick(q, now);
      || (r.local.count == q.local.count && Outstanding(r) == Outstanding(q))
      || (r.local.count == q.local.count - 1 && Outstanding(r) == Outstanding(q)[1..])
  {
    var e := Expire(q, now);
    var t := Retire(e, now);
    assert Outstanding(Tick(q, now)) == Outstanding(t);
    if e != q {
      assert Outstanding(e)[1..] == Outstanding(q)[1..] by {
        var n := q.desc.numMessages;
        forall i | 1 <= i < q.local.count
          ensures Outstanding(e)[i] == Outstanding(q)[i]
        {
          ModSmall(q.local.start + i, n);
        }
      }
    }
  }

  /** Bounded latency: once the head message is past its deadline, the next
      tick completes it, whether or not its recipients acknowledged it. */
  lemma TickCompletesOverdueHead(q: QueueState, now: nat)
    requires Inv(q) && q.local.count > 0 && now > q.local.msgTimeout
    ensures Tick(q, now).local.count == q.local.count - 1
    ensures Tick(q, now).local.msgTimeout == now + MAX_MESSAGE_AGE
  {
    var e := Expire(q, now);
    assert Head(e).pendingSubs - e.desc.badSubs == {};
  }

  /** A head message that a subscriber in good standing still has pending and
      that is not yet overdue stays where it is. */
  lemma TickWaitsForHead(q: QueueState, now: nat)
    requires Inv(q) && q.local.count > 0
    requires Head(q).pendingSubs - q.desc.badSubs != {} && now <= q.local.msgTimeout
    ensures Tick(q, now).local == q.local && Tick(q, now).ring == q.ring
  {
  }

  /** A subscribed recipient that has not acknowledged an overdue head is
      flagged bad, stays subscribed, and is given a reap deadline
      MAX_QUEUE_TIMEOUT ahead. */
  lemma TickFlagsLaggard(q: QueueState, now: nat, k: SubId)
    requires Inv(q) && q.local.count > 0 && now > q.local.msgTimeout
    requires Head(q).pendingSubs - q.desc.badSubs != {}
    requires k in q.desc.subs && k in Head(q).pendingSubs
    ensures k in Tick(q, now).desc.badSubs && k in Tick(q, now).desc.subs
    ensures Tick(q, now).local.timeout[k] == now + MAX_QUEUE_TIMEOUT
  {
    var e := Expire(q, now);
    assert k in e.desc.badSubs && e.local.timeout[k] == now + MAX_QUEUE_TIMEOUT;
  }

  /** Nobody else is flagged bad: a subscriber that becomes bad in a tick was
      subscribed and had the overdue head pending. */
  lemma TickFlagsOnlyLaggards(q: QueueState, now: nat, k: SubId)
    requires Inv(q)
    requires k in Tick(q, now).desc.badSubs && k !in q.desc.badSubs
    ensures q.local.count > 0 && now > q.local.msgTimeout
    ensures k in q.desc.subs && k in Head(q).pendingSubs
  {
    var e := Expire(q, now);
    assert k in e.desc.badSubs;
  }

  /** A flagged-bad subscriber whose deadline has passed, and whose deadline
      this tick does not re-arm, loses both its bad and its subscribed bit. */
  lemma TickReapsExpired(q: QueueState, now: nat, k: SubId)
    requires Inv(q)
    requires k in q.desc.badSubs && now > q.local.timeout[k]
    requires !(q.local.count > 0 && Head(q).pendingSubs - q.desc.badSubs != {} && now > q.local.msgTimeout && k in Head(q).pendingSubs)
    ensures k !in Tick(q, now).desc.badSubs && k !in Tick(q, now).desc.subs
  {
    var e := Expire(q, now);
    assert k in e.desc.badSubs && e.local.timeout[k] == q.local.timeout[k];
  }

  /** Once no subscriber in good standing has the head message pending, the
      next tick retires it, whatever the time. */
  lemma TickRetiresAcknowledgedHead(q: QueueState, now: nat)
    requires Inv(q) && q.local.count > 0
    requires Head(q).pendingSubs <= q.desc.badSubs
    ensures Tick(q, now).local.count == q.local.count - 1
    ensures Outstanding(Tick(q, now)) == Outstanding(q)[1..]
  {
    assert Expire(q, now) == q;
  }

  /** The host and the subscriber meet: when `id` is the last subscriber in
      good standing with the head pending, its acknowledgement lets the next
      tick retire the head and leaves the later messages as they were. */
  lemma LastAcknowledgementRetiresHead(q: QueueState, now: nat, id: SubId)
    requires Inv(q) && q.local.count > 0
    requires Head(q).pendingSubs - q.desc.badSubs <= {id}
    ensures var r := Tick(Acknowledge(q, q.local.start, id), now);
      r.local.count == q.local.count - 1 && Outstanding(r) == Outstanding(q)[1..]
  {
    var a := Acknowledge(q, q.local.start, id);
    assert Head(a).pendingSubs <= a.desc.badSubs;
    TickRetiresAcknowledgedHead(a, now);
    AcknowledgeKeepsLater(q, id);
  }

  /** Acknowledging the head leaves every later outstanding message as it was. */
  lemma AcknowledgeKeepsLater(q: QueueState, id: SubId)
    requires Inv(q) && q.local.count > 0
    ensures Outstanding(Acknowledge(q, q.local.start, id))[1..] == Outstanding(q)[1..]
  {
    var a := Acknowledge(q, q.local.start, id);
    var n := q.desc.numMessages;
    forall i | 1 <= i < q.local.count
      ensures Outstanding(a)[i] == Outstanding(q)[i]
    {
      ModSmall(q.local.start + i, n);
    }
  }

  /** An acknowledgement by one subscriber never clears the pending bit of
      another, so it cannot complete a message on another's behalf. */
  lemma AcknowledgementIsPrivate(q: QueueState, slot: nat, id: SubId, other: SubId)
    requires Inv(q) && slot < q.desc.numMessages && other != id
    ensures other in Acknowledge(q, slot, id).ring[slot].pendingSubs <==> other in q.ring[slot].pendingSubs
  {
  }

  /** Posting while no subscriber is in good standing is not a no-op: the
      message takes a slot, with nobody pending, and both write cursors move. */
  lemma PostWithoutRecipientsStillAdvances(q: QueueState, msgType: U32, payload: Memory, now: nat)
    requires Inv(q) && q.local.count < q.desc.numMessages - 1
    requires q.desc.subs <= q.desc.badSubs
    ensures var r := Post(q, msgType, payload, now);
      && r.0 == Ok
      && r.1.local.count == q.local.count + 1
      && r.1.desc.position == Advance(q.desc.position, q.desc.numMessages)
      && Outstanding(r.1)[q.local.count].pendingSubs == {}
  {
  }
}
