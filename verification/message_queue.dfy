/** `MessageQueue`, the front door: sends and broadcasts build outbound messages from this
    queue's address and hand them to the outbound queue; receives go to the inbound queue.
    Every call first refuses to work on a queue whose state is `Failed`. */
module MessageQueues {
  import opened Base
  import Guids
  import Addresses
  import DateTimes
  import Routing
  import Messages
  import InboundQueues
  import OM = OutboundMessages
  import OQ = OutboundQueues

  type Msg = OM.OutboundMessage

  datatype QueueState = Running | Failed

  /** The front door's view: its address, the two queues, and each queue's state and state exception. */
  datatype Front = Front(address: Addresses.Address, outbound: OQ.OutQueue, inbound: InboundQueues.InQueue,
                         outState: QueueState, outException: Option<Exn>,
                         inState: QueueState, inException: Option<Exn>)

  const OutboundFailed: string := "Outbound queue exception state. See inner exception."
  const InboundFailed: string := "Inbound queue exception state. See inner exception."

  datatype Payload = Text(text: Option<string>) | Bytes(bytes: Option<seq<Byte>>)

  /** The outbound message `SendMsg` and `BroadcastMsg` build. */
  function Compose(from: Addresses.Address, to: Addresses.Address, id: Guids.Guid, typeName: Option<string>,
                   payload: Payload, sent: DateTimes.DateTime): (m: Msg)
    ensures m.id == id && m.from == Some(from) && m.to == Some(to) && m.sent == sent
    ensures m.filename.None? && m.sendAttempts == 0
  {
    match payload
    case Text(t) => OM.OutboundMessage(None, id, Some(from), Some(to), sent, typeName, None, t, 0, DateTimes.MinValue)
    case Bytes(b) => OM.OutboundMessage(None, id, Some(from), Some(to), sent, typeName, b, None, 0, DateTimes.MinValue)
  }

  /** The outbound state guard of `SendMsg` and `BroadcastMsg`. */
  function OutboundGate(f: Front): (e: Option<Exn>)
    ensures e.Some? <==> f.outState == Failed
  {
    if f.outState == Failed then Some(IOErrorWith(OutboundFailed, f.outException)) else None
  }

  /** The inbound state guard of `Receive`, `ReceiveBulk`, `Accept`, `AcceptBulk`, `Acknowledge` and `ReEnqueue`. */
  function InboundGate(f: Front): (e: Option<Exn>)
    ensures e.Some? <==> f.inState == Failed
  {
    if f.inState == Failed then Some(IOErrorWith(InboundFailed, f.inException)) else None
  }

  /** `GetOptimalAddress(dest)` for this queue. */
  function Route(f: Front, dest: Addresses.Address, resolve: Addresses.Resolver, hostName: string): Result<Addresses.Address>
  {
    Routing.ForQueue(f.address, dest, resolve, hostName)
  }

  // ---------------------------------------------------------------------------
  // Send
  // ---------------------------------------------------------------------------

  /** `Send<T>`, `Send` and `SendBytes`: route the destination, then (`SendMsg`) refuse a failed
      outbound queue, build the message with a new id and the clock reading, enqueue it and
      return its id. A routing failure is thrown before the state is looked at. */
  function Send(f: Front, dest: Addresses.Address, typeName: Option<string>, payload: Payload, id: Guids.Guid,
                now: DateTimes.DateTime, resolve: Addresses.Resolver, hostName: string): (r: Result<(Front, Guids.Guid)>)
    ensures Route(f, dest, resolve, hostName).Err? ==> r == Err(Route(f, dest, resolve, hostName).error)
    ensures Route(f, dest, resolve, hostName).Ok? && f.outState == Failed ==>
              r == Err(IOErrorWith(OutboundFailed, f.outException))
    ensures r.Ok? ==> && r.value.1 == id
                      && |r.value.0.outbound.mq| == |f.outbound.mq| + 1
                      && r.value.0.outbound.mq[..|f.outbound.mq|] == f.outbound.mq
                      && var m := r.value.0.outbound.mq[|f.outbound.mq|];
                         m.id == id && m.from == Some(f.address) && m.sent == now
                         && m.to == Some(Route(f, dest, resolve, hostName).value)
    ensures r.Ok? ==> r.value.0.inbound == f.inbound && r.value.0.outbound.retry == f.outbound.retry
  {
    var addr :- Route(f, dest, resolve, hostName);
    if OutboundGate(f).Some? then Err(OutboundGate(f).value)
    else
      var m := Compose(f.address, addr, id, typeName, payload, now);
      var q :- OQ.Enqueue(f.outbound, m);
      Ok((f.(outbound := q), id))
  }

  // ---------------------------------------------------------------------------
  // Broadcast
  // ---------------------------------------------------------------------------

  /** Route every destination in order; the first failure is thrown. */
  function RouteAll(f: Front, dests: seq<Addresses.Address>, resolve: Addresses.Resolver, hostName: string)
    : (r: Result<seq<Addresses.Address>>)
    ensures r.Ok? ==> |r.value| == |dests|
                      && forall i :: 0 <= i < |dests| ==> Route(f, dests[i], resolve, hostName) == Ok(r.value[i])
    ensures r.Err? ==> exists i :: 0 <= i < |dests| && Route(f, dests[i], resolve, hostName).Err?
  {
    if |dests| == 0 then Ok([])
    else
      var a :- Route(f, dests[0], resolve, hostName);
      var rest :- RouteAll(f, dests[1..], resolve, hostName);
      assert forall i :: 1 <= i < |dests| ==> dests[i] == dests[1..][i - 1];
      Ok([a] + rest)
  }

  /** One enqueue of the broadcast loop: the outbound queue's `Enqueue`. */
  type Put = (OQ.OutQueue, Msg) -> Result<OQ.OutQueue>

  /** Enqueue `msgs` in order with `put`. An exception stops the loop; what was enqueued stays. */
  function EnqueueAllWith(put: Put, q: OQ.OutQueue, msgs: seq<Msg>): (r: (OQ.OutQueue, Option<Exn>))
    decreases |msgs|
  {
    if |msgs| == 0 then (q, None)
    else
      match put(q, msgs[0])
      case Err(e) => (q, Some(e))
      case Ok(q1) => EnqueueAllWith(put, q1, msgs[1..])
  }

  /** The broadcast loop over the outbound queue. */
  function EnqueueAll(q: OQ.OutQueue, msgs: seq<Msg>): (r: (OQ.OutQueue, Option<Exn>))
  {
    EnqueueAllWith(OQ.Enqueue, q, msgs)
  }

  /** `stored` is `m` as the outbound queue keeps it: the same message with a file name. */
  predicate StoredAs(stored: Msg, m: Msg)
  {
    stored == m.(filename := stored.filename)
  }

  /** What the loop relies on from one enqueue: it fails exactly on messages without a destination
      fingerprint, and otherwise appends the message, with a file name, after what was queued. */
  ghost predicate Appends(put: Put)
  {
    forall q: OQ.OutQueue, m: Msg ::
      && (put(q, m).Err? <==> OQ.DestOf(m).Err?)
      && (put(q, m).Ok? ==> && |put(q, m).value.mq| == |q.mq| + 1
                            && put(q, m).value.mq[..|q.mq|] == q.mq
                            && StoredAs(put(q, m).value.mq[|q.mq|], m))
  }

  /** The outbound queue's `Enqueue` is such an enqueue. */
  lemma EnqueueAppends()
    ensures Appends(OQ.Enqueue)
  {
    forall q: OQ.OutQueue, m: Msg
      ensures OQ.Enqueue(q, m).Ok? ==> StoredAs(OQ.Enqueue(q, m).value.mq[|q.mq|], m)
    {
      if OQ.Enqueue(q, m).Ok? {
        assert OQ.Enqueue(q, m).value.mq[|q.mq|].filename.Some?;
      }
    }
  }

  /** The loop goes through exactly when every message has a destination fingerprint. */
  lemma {:induction false} EnqueueAllSucceeds(put: Put, q: OQ.OutQueue, msgs: seq<Msg>)
    requires Appends(put)
    ensures EnqueueAllWith(put, q, msgs).1.None? <==> forall i :: 0 <= i < |msgs| ==> OQ.DestOf(msgs[i]).Ok?
    decreases |msgs|
  {
    if |msgs| > 0 {
      var r := put(q, msgs[0]);
      if r.Ok? {
        EnqueueAllSucceeds(put, r.value, msgs[1..]);
        assert forall i :: 1 <= i < |msgs| ==> msgs[i] == msgs[1..][i - 1];
      }
    }
  }

  /** When it goes through, the loop appends one message per element after what was queued. */
  lemma {:induction false} EnqueueAllAppends(put: Put, q: OQ.OutQueue, msgs: seq<Msg>)
    requires Appends(put) && EnqueueAllWith(put, q, msgs).1.None?
    ensures |EnqueueAllWith(put, q, msgs).0.mq| == |q.mq| + |msgs|
    ensures EnqueueAllWith(put, q, msgs).0.mq[..|q.mq|] == q.mq
    decreases |msgs|
  {
    if |msgs| > 0 {
      var q1 := put(q, msgs[0]).value;
      EnqueueAllAppends(put, q1, msgs[1..]);
      var q2 := EnqueueAllWith(put, q1, msgs[1..]).0;
      assert q2.mq[..|q.mq|] == q2.mq[..|q1.mq|][..|q.mq|];
    }
  }

  /** The message the loop put at position `i` is the `i`-th given, with a file name. */
  lemma {:induction false} EnqueuedAt(put: Put, q: OQ.OutQueue, msgs: seq<Msg>, i: nat)
    requires Appends(put) && EnqueueAllWith(put, q, msgs).1.None? && i < |msgs|
    ensures var out := EnqueueAllWith(put, q, msgs).0.mq;
      |q.mq| + i < |out| && StoredAs(out[|q.mq| + i], msgs[i])
    decreases |msgs|
  {
    var q1 := put(q, msgs[0]).value;
    var out := EnqueueAllWith(put, q1, msgs[1..]).0.mq;
    EnqueueAllAppends(put, q1, msgs[1..]);
    if i == 0 {
      assert out[|q.mq|] == out[..|q1.mq|][|q.mq|] == q1.mq[|q.mq|];
    } else {
      EnqueuedAt(put, q1, msgs[1..], i - 1);
      assert msgs[1..][i - 1] == msgs[i];
    }
  }

  /** The text fan-out of `BroadcastMsg(string, …)`: one id and one clock reading for every message. */
  function TextFanOut(from: Addresses.Address, addrs: seq<Addresses.Address>, typeName: Option<string>,
                      text: Option<string>, id: Guids.Guid, now: DateTimes.DateTime): (ms: seq<Msg>)
    ensures |ms| == |addrs|
    ensures forall i :: 0 <= i < |ms| ==> ms[i].id == id && ms[i].sent == now && ms[i].to == Some(addrs[i])
  {
    seq(|addrs|, i requires 0 <= i < |addrs| => Compose(from, addrs[i], id, typeName, Text(text), now))
  }

  /** The byte fan-out of `BroadcastMsg(byte[], …)`: each message takes its own new id and clock
      reading (`ids[i]`, `times[i]`), not the ones the call returns. */
  function BytesFanOut(from: Addresses.Address, addrs: seq<Addresses.Address>, typeName: Option<string>,
                       bytes: Option<seq<Byte>>, ids: seq<Guids.Guid>, times: seq<DateTimes.DateTime>): (ms: seq<Msg>)
    requires |ids| == |addrs| && |times| == |addrs|
    ensures |ms| == |addrs|
    ensures forall i :: 0 <= i < |ms| ==> ms[i].id == ids[i] && ms[i].sent == times[i] && ms[i].to == Some(addrs[i])
  {
    seq(|addrs|, i requires 0 <= i < |addrs| => Compose(from, addrs[i], ids[i], typeName, Bytes(bytes), times[i]))
  }

  /** `Broadcast<T>` and `Broadcast` with a text payload: route all destinations, refuse a failed
      outbound queue, enqueue one message per destination in order, return the shared id. */
  function BroadcastText(f: Front, dests: seq<Addresses.Address>, typeName: Option<string>, text: Option<string>,
                         id: Guids.Guid, now: DateTimes.DateTime, resolve: Addresses.Resolver, hostName: string)
    : (r: (Front, Result<Guids.Guid>))
    ensures r.1.Ok? ==> r.1.value == id
    ensures (RouteAll(f, dests, resolve, hostName).Err? || f.outState == Failed) ==> r.0 == f && r.1.Err?
  {
    match RouteAll(f, dests, resolve, hostName)
    case Err(e) => (f, Err(e))
    case Ok(addrs) =>
      if OutboundGate(f).Some? then (f, Err(OutboundGate(f).value))
      else
        var (q, e) := EnqueueAll(f.outbound, TextFanOut(f.address, addrs, typeName, text, id, now));
        (f.(outbound := q), if e.Some? then Err(e.value) else Ok(id))
  }

  /** `BroadcastBytes`: as `BroadcastText`, but the returned id (`id`) is drawn before the loop
      and every message gets a further new id and clock reading. */
  function BroadcastBytes(f: Front, dests: seq<Addresses.Address>, typeName: Option<string>, bytes: Option<seq<Byte>>,
                          id: Guids.Guid, ids: seq<Guids.Guid>, times: seq<DateTimes.DateTime>,
                          resolve: Addresses.Resolver, hostName: string)
    : (r: (Front, Result<Guids.Guid>))
    requires |ids| == |dests| && |times| == |dests|
    ensures r.1.Ok? ==> r.1.value == id
    ensures (RouteAll(f, dests, resolve, hostName).Err? || f.outState == Failed) ==> r.0 == f && r.1.Err?
  {
    match RouteAll(f, dests, resolve, hostName)
    case Err(e) => (f, Err(e))
    case Ok(addrs) =>
      if OutboundGate(f).Some? then (f, Err(OutboundGate(f).value))
      else
        var (q, e) := EnqueueAll(f.outbound, BytesFanOut(f.address, addrs, typeName, bytes, ids, times));
        (f.(outbound := q), if e.Some? then Err(e.value) else Ok(id))
  }

  /** Routed addresses are never dual, and a routed TCP address has an IP address, so every
      fan-out message has a destination fingerprint. */
  lemma RoutedHasFingerprint(f: Front, dest: Addresses.Address, resolve: Addresses.Resolver, hostName: string,
                             id: Guids.Guid, typeName: Option<string>, payload: Payload, now: DateTimes.DateTime)
    requires Route(f, dest, resolve, hostName).Ok?
    ensures OQ.DestOf(Compose(f.address, Route(f, dest, resolve, hostName).value, id, typeName, payload, now)).Ok?
  {
  }

  /** A loop over messages that all have a destination fingerprint goes through and leaves
      them, in order, after what was queued. */
  lemma LoopKeepsOrder(put: Put, q: OQ.OutQueue, msgs: seq<Msg>)
    requires Appends(put) && forall i :: 0 <= i < |msgs| ==> OQ.DestOf(msgs[i]).Ok?
    ensures var (q', e) := EnqueueAllWith(put, q, msgs);
      && e.None?
      && |q'.mq| == |q.mq| + |msgs|
      && q'.mq[..|q.mq|] == q.mq
      && forall i :: 0 <= i < |msgs| ==> StoredAs(q'.mq[|q.mq| + i], msgs[i])
  {
    EnqueueAllSucceeds(put, q, msgs);
    EnqueueAllAppends(put, q, msgs);
    forall i | 0 <= i < |msgs| ensures StoredAs(EnqueueAllWith(put, q, msgs).0.mq[|q.mq| + i], msgs[i]) {
      EnqueuedAt(put, q, msgs, i);
    }
  }

  /** `after` is `before` with one copy per address of `tos` appended in that order, the i-th carrying
      `ids[i]` and `sents[i]`. */
  predicate ExtendsWithEach(before: seq<Msg>, after: seq<Msg>, tos: seq<Addresses.Address>,
                            ids: seq<Guids.Guid>, sents: seq<DateTimes.DateTime>)
  {
    && |ids| == |tos| && |sents| == |tos|
    && |after| == |before| + |tos|
    && after[..|before|] == before
    && forall i :: 0 <= i < |tos| ==>
         after[|before| + i].id == ids[i] && after[|before| + i].sent == sents[i] && after[|before| + i].to == Some(tos[i])
  }

  /** `n` copies of `x`. */
  function Repeat<T>(n: nat, x: T): (r: seq<T>)
    ensures |r| == n && forall i :: 0 <= i < n ==> r[i] == x
  {
    seq(n, _ => x)
  }

  /** As `ExtendsWithEach`, every copy carrying the same id and time. */
  predicate ExtendsWith(before: seq<Msg>, after: seq<Msg>, tos: seq<Addresses.Address>,
                        id: Guids.Guid, sent: DateTimes.DateTime)
  {
    ExtendsWithEach(before, after, tos, Repeat(|tos|, id), Repeat(|tos|, sent))
  }

  /** Appending stored copies of `ms` extends the queue with their ids, times and destinations. */
  lemma CopiesExtend(before: seq<Msg>, after: seq<Msg>, ms: seq<Msg>, tos: seq<Addresses.Address>,
                     ids: seq<Guids.Guid>, sents: seq<DateTimes.DateTime>)
    requires |ms| == |tos| && |ids| == |tos| && |sents| == |tos|
    requires |after| == |before| + |ms| && after[..|before|] == before
    requires forall i :: 0 <= i < |ms| ==> StoredAs(after[|before| + i], ms[i])
    requires forall i :: 0 <= i < |ms| ==> ms[i].id == ids[i] && ms[i].sent == sents[i] && ms[i].to == Some(tos[i])
    ensures ExtendsWithEach(before, after, tos, ids, sents)
  {
    forall i | 0 <= i < |tos|
      ensures after[|before| + i].id == ids[i] && after[|before| + i].sent == sents[i] && after[|before| + i].to == Some(tos[i])
    {
      assert StoredAs(after[|before| + i], ms[i]);
    }
  }

  /** Any enqueue with the `Appends` discipline takes a text fan-out to fingerprinted addresses whole. */
  lemma TextFanOutExtends(put: Put, q: OQ.OutQueue, from: Addresses.Address, addrs: seq<Addresses.Address>,
                          typeName: Option<string>, text: Option<string>, id: Guids.Guid, now: DateTimes.DateTime)
    requires Appends(put)
    requires forall i :: 0 <= i < |addrs| ==> OQ.DestOf(TextFanOut(from, addrs, typeName, text, id, now)[i]).Ok?
    ensures var r := EnqueueAllWith(put, q, TextFanOut(from, addrs, typeName, text, id, now));
      r.1.None? && ExtendsWith(q.mq, r.0.mq, addrs, id, now)
  {
    var ms := TextFanOut(from, addrs, typeName, text, id, now);
    LoopKeepsOrder(put, q, ms);
    CopiesExtend(q.mq, EnqueueAllWith(put, q, ms).0.mq, ms, addrs, Repeat(|addrs|, id), Repeat(|addrs|, now));
  }

  /** A text broadcast that passes its guards enqueues one message per routed destination, in
      destination order, all with the returned id and the same `Sent`. */
  lemma BroadcastTextSharesId(f: Front, dests: seq<Addresses.Address>, typeName: Option<string>, text: Option<string>,
                              id: Guids.Guid, now: DateTimes.DateTime, resolve: Addresses.Resolver, hostName: string)
    requires RouteAll(f, dests, resolve, hostName).Ok? && f.outState == Running
    ensures BroadcastText(f, dests, typeName, text, id, now, resolve, hostName).1 == Ok(id)
    ensures ExtendsWith(f.outbound.mq, BroadcastText(f, dests, typeName, text, id, now, resolve, hostName).0.outbound.mq,
                        RouteAll(f, dests, resolve, hostName).value, id, now)
  {
    var addrs := RouteAll(f, dests, resolve, hostName).value;
    var ms := TextFanOut(f.address, addrs, typeName, text, id, now);
    forall i | 0 <= i < |addrs| ensures OQ.DestOf(ms[i]).Ok? {
      RoutedHasFingerprint(f, dests[i], resolve, hostName, id, typeName, Text(text), now);
    }
    EnqueueAppends();
    TextFanOutExtends(OQ.Enqueue, f.outbound, f.address, addrs, typeName, text, id, now);
  }

  /** Any enqueue with the `Appends` discipline takes a bytes fan-out to fingerprinted addresses whole. */
  lemma BytesFanOutExtends(put: Put, q: OQ.OutQueue, from: Addresses.Address, addrs: seq<Addresses.Address>,
                           typeName: Option<string>, bytes: Option<seq<Byte>>,
                           ids: seq<Guids.Guid>, times: seq<DateTimes.DateTime>)
    requires Appends(put) && |ids| == |addrs| && |times| == |addrs|
    requires forall i :: 0 <= i < |addrs| ==> OQ.DestOf(BytesFanOut(from, addrs, typeName, bytes, ids, times)[i]).Ok?
    ensures var r := EnqueueAllWith(put, q, BytesFanOut(from, addrs, typeName, bytes, ids, times));
      r.1.None? && ExtendsWithEach(q.mq, r.0.mq, addrs, ids, times)
  {
    var ms := BytesFanOut(from, addrs, typeName, bytes, ids, times);
    LoopKeepsOrder(put, q, ms);
    CopiesExtend(q.mq, EnqueueAllWith(put, q, ms).0.mq, ms, addrs, ids, times);
  }

  /** A queue extended with copies whose ids avoid `id` holds no new message carrying `id`. */
  lemma NewCopiesAvoid(before: seq<Msg>, after: seq<Msg>, tos: seq<Addresses.Address>,
                       ids: seq<Guids.Guid>, sents: seq<DateTimes.DateTime>, id: Guids.Guid)
    requires ExtendsWithEach(before, after, tos, ids, sents) && id !in ids
    ensures forall i :: |before| <= i < |after| ==> after[i].id != id
  {
    forall i | |before| <= i < |after| ensures after[i].id != id {
      var k := i - |before|;
      assert after[|before| + k].id == ids[k];
    }
  }

  /** The id a bytes broadcast returns is none of the ids its queued copies carry. */
  lemma BroadcastBytesIdUnattached(f: Front, dests: seq<Addresses.Address>, typeName: Option<string>,
                                   bytes: Option<seq<Byte>>, id: Guids.Guid, ids: seq<Guids.Guid>,
                                   times: seq<DateTimes.DateTime>, resolve: Addresses.Resolver, hostName: string)
    requires |ids| == |dests| && |times| == |dests| && id !in ids
    requires RouteAll(f, dests, resolve, hostName).Ok? && f.outState == Running
    ensures BroadcastBytes(f, dests, typeName, bytes, id, ids, times, resolve, hostName).1 == Ok(id)
    ensures ExtendsWithEach(f.outbound.mq, BroadcastBytes(f, dests, typeName, bytes, id, ids, times, resolve, hostName).0.outbound.mq,
                            RouteAll(f, dests, resolve, hostName).value, ids, times)
    ensures var after := BroadcastBytes(f, dests, typeName, bytes, id, ids, times, resolve, hostName).0.outbound.mq;
      forall i :: |f.outbound.mq| <= i < |after| ==> after[i].id != id
  {
    var addrs := RouteAll(f, dests, resolve, hostName).value;
    var ms := BytesFanOut(f.address, addrs, typeName, bytes, ids, times);
    forall i | 0 <= i < |ms| ensures OQ.DestOf(ms[i]).Ok? {
      RoutedHasFingerprint(f, dests[i], resolve, hostName, ids[i], typeName, Bytes(bytes), times[i]);
    }
    EnqueueAppends();
    BytesFanOutExtends(OQ.Enqueue, f.outbound, f.address, addrs, typeName, bytes, ids, times);
    var after := BroadcastBytes(f, dests, typeName, bytes, id, ids, times, resolve, hostName).0.outbound.mq;
    NewCopiesAvoid(f.outbound.mq, after, addrs, ids, times, id);
  }


  // ---------------------------------------------------------------------------
  // Receive side
  // ---------------------------------------------------------------------------

  /** `Receive(timeoutMs)`: refuse a failed inbound queue, else receive (logging the read). */
  function Receive(f: Front, now: DateTimes.DateTime): (r: (Front, Result<Option<Messages.Message>>))
    ensures f.inState == Failed ==> r == (f, Err(IOErrorWith(InboundFailed, f.inException)))
    ensures r.0.outbound == f.outbound
  {
    if InboundGate(f).Some? then (f, Err(InboundGate(f).value))
    else
      var (q, res) := InboundQueues.Receive(f.inbound, now);
      (f.(inbound := q), res)
  }

  /** On a running front door with a consistent inbound queue, `Receive` hands out messages in arrival order. */
  lemma ReceiveInOrder(f: Front, now: DateTimes.DateTime)
    requires f.inState == Running && InboundQueues.Good(f.inbound) && |f.inbound.mq| > 0
    ensures Receive(f, now).1 == Ok(Some(f.inbound.mq[0]))
    ensures Receive(f, now).0.inbound.mq == f.inbound.mq[1..]
  {
    InboundQueues.ReceiveFifo(f.inbound, now);
  }

  /** A send refused by the state guard changes nothing. */
  lemma FailedSendChangesNothing(f: Front, dests: seq<Addresses.Address>, typeName: Option<string>,
                                 text: Option<string>, id: Guids.Guid, now: DateTimes.DateTime,
                                 resolve: Addresses.Resolver, hostName: string)
    requires f.outState == Failed
    ensures BroadcastText(f, dests, typeName, text, id, now, resolve, hostName).0 == f
    ensures forall d: Addresses.Address, p: Payload :: Send(f, d, typeName, p, id, now, resolve, hostName).Err?
  {
  }
}
