/** `OutboundQueue`: the durable outbox. `Enqueue` writes each message to its own
    `.omq` file under `out` and queues it; the sending loop takes messages in order,
    diverts a message whose destination already has failures waiting onto that
    destination's retry queue, stamps and sends, and on success logs the record to
    `sent\sent-<yyyyMMdd-hh>.log` and deletes the file; a message still failing a day
    after it was sent is logged to `fail\fail-<yyyyMMdd-hh>.log` instead. */
module OutboundQueues {
  import opened Base
  import opened Text
  import Sorting
  import DateTimes
  import Addresses
  import Guids
  import OM = OutboundMessages
  import opened QueueFiles

  type Msg = OM.OutboundMessage

  // ---------------------------------------------------------------------------
  // Retry queues: a dictionary from destination fingerprint to a FIFO queue.
  // Keys are only ever added, so enumeration follows insertion order.
  // ---------------------------------------------------------------------------

  type RetryQueues = seq<(string, seq<Msg>)>

  /** Position of key `k`, or `|r|` when absent. */
  function KeyIndex(r: RetryQueues, k: string): (i: nat)
    ensures i <= |r|
    ensures i < |r| ==> r[i].0 == k
    ensures forall j :: 0 <= j < i ==> r[j].0 != k
  {
    if |r| == 0 then 0
    else if r[0].0 == k then 0
    else
      var i := 1 + KeyIndex(r[1..], k);
      assert forall j :: 1 <= j < i ==> r[j] == r[1..][j - 1];
      i
  }

  /** `retryQueues.ContainsKey(k) ? retryQueues[k] : null`. */
  function Lookup(r: RetryQueues, k: string): (v: Option<seq<Msg>>)
    ensures v.None? <==> forall j :: 0 <= j < |r| ==> r[j].0 != k
  {
    var i := KeyIndex(r, k);
    if i < |r| then Some(r[i].1) else None
  }

  /** `retryQueues[k] = v`, the key added at the end when new. */
  function Store(r: RetryQueues, k: string, v: seq<Msg>): (r': RetryQueues)
    ensures Lookup(r', k) == Some(v)
    ensures |r'| == |r| + (if Lookup(r, k).None? then 1 else 0)
  {
    var i := KeyIndex(r, k);
    var r' := if i < |r| then r[i := (k, v)] else r + [(k, v)];
    KeyIndexFirst(r', k, i);
    r'
  }

  /** The first position holding `k` is what `KeyIndex` finds. */
  lemma {:induction false} KeyIndexFirst(r: RetryQueues, k: string, i: nat)
    requires i < |r| && r[i].0 == k
    requires forall j :: 0 <= j < i ==> r[j].0 != k
    ensures KeyIndex(r, k) == i
  {
    if i > 0 {
      KeyIndexFirst(r[1..], k, i - 1);
    }
  }

  /** Away from the key's own entry, `Store` leaves the front of the dictionary alone. */
  lemma StoreTail(r: RetryQueues, k: string, v: seq<Msg>)
    requires |r| > 0 && r[0].0 != k
    ensures Store(r, k, v) == [r[0]] + Store(r[1..], k, v)
    ensures Lookup(r, k) == Lookup(r[1..], k)
  {
    assert KeyIndex(r, k) == 1 + KeyIndex(r[1..], k);
  }

  /** `retryQueues[k].Dequeue()`: a missing key and an empty queue both throw. */
  function RetryDequeue(r: RetryQueues, k: string): (res: Result<(Msg, RetryQueues)>)
    ensures res.Ok? <==> Lookup(r, k).Some? && |Lookup(r, k).value| > 0
    ensures res.Ok? ==> res.value.0 == Lookup(r, k).value[0]
                        && Lookup(res.value.1, k) == Some(Lookup(r, k).value[1..])
  {
    match Lookup(r, k)
    case None => Err(KeyNotFound(k))
    case Some(ms) =>
      if |ms| == 0 then Err(InvalidOperation("Queue empty."))
      else Ok((ms[0], Store(r, k, ms[1..])))
  }

  /** Replace the head of queue `k` by `s`: the in-place update of a peeked message object. */
  function ReplaceHead(r: RetryQueues, k: string, s: Msg): RetryQueues
  {
    match Lookup(r, k)
    case Some(ms) => if |ms| > 0 then Store(r, k, [s] + ms[1..]) else r
    case None => r
  }

  predicate DistinctKeys(r: RetryQueues)
  {
    forall i, j :: 0 <= i < j < |r| ==> r[i].0 != r[j].0
  }

  // ---------------------------------------------------------------------------
  // Identities carried by the queues
  // ---------------------------------------------------------------------------

  function IdsOf(ms: seq<Msg>): (ids: seq<Guids.Guid>)
    ensures |ids| == |ms|
  {
    seq(|ms|, i requires 0 <= i < |ms| => ms[i].id)
  }

  /** The message ids in one queue, with multiplicity. */
  function MsgIds(ms: seq<Msg>): multiset<Guids.Guid>
  {
    multiset(IdsOf(ms))
  }

  /** The message ids in all retry queues. */
  function RetryIds(r: RetryQueues): multiset<Guids.Guid>
  {
    if |r| == 0 then multiset{} else MsgIds(r[0].1) + RetryIds(r[1..])
  }

  lemma MsgIdsAppend(a: seq<Msg>, b: seq<Msg>)
    ensures MsgIds(a + b) == MsgIds(a) + MsgIds(b)
  {
    assert IdsOf(a + b) == IdsOf(a) + IdsOf(b);
  }

  lemma MsgIdsCons(ms: seq<Msg>)
    requires |ms| > 0
    ensures MsgIds(ms) == multiset{ms[0].id} + MsgIds(ms[1..])
  {
    assert IdsOf(ms) == [ms[0].id] + IdsOf(ms[1..]);
  }

  /** Storing a queue under a key trades the ids of the queue it replaces for its own. */
  lemma {:induction false} StoreIds(r: RetryQueues, k: string, v: seq<Msg>)
    ensures RetryIds(Store(r, k, v)) + MsgIds(Lookup(r, k).GetOr([])) == RetryIds(r) + MsgIds(v)
  {
    var r' := Store(r, k, v);
    if |r| == 0 {
      assert r' == [(k, v)];
      assert r'[1..] == [];
      assert RetryIds(r') == MsgIds(v);
      assert IdsOf([]) == [];
    } else if r[0].0 == k {
      assert KeyIndex(r, k) == 0;
      assert Lookup(r, k) == Some(r[0].1);
      assert r' == r[0 := (k, v)];
      assert r'[0].1 == v;
      assert r'[1..] == r[1..];
      assert RetryIds(r') == MsgIds(v) + RetryIds(r[1..]);
      assert RetryIds(r) == MsgIds(r[0].1) + RetryIds(r[1..]);
    } else {
      StoreIds(r[1..], k, v);
      StoreTail(r, k, v);
      assert r'[0] == r[0] && r'[1..] == Store(r[1..], k, v);
      assert RetryIds(r') == MsgIds(r[0].1) + RetryIds(Store(r[1..], k, v));
      assert RetryIds(r) == MsgIds(r[0].1) + RetryIds(r[1..]);
      var prior := MsgIds(Lookup(r[1..], k).GetOr([]));
      assert RetryIds(Store(r[1..], k, v)) + prior == RetryIds(r[1..]) + MsgIds(v);
      assert MsgIds(Lookup(r, k).GetOr([])) == prior;
      calc {
        RetryIds(r') + prior;
        MsgIds(r[0].1) + RetryIds(Store(r[1..], k, v)) + prior;
        MsgIds(r[0].1) + (RetryIds(Store(r[1..], k, v)) + prior);
        MsgIds(r[0].1) + (RetryIds(r[1..]) + MsgIds(v));
        RetryIds(r) + MsgIds(v);
      }
    }
  }

  /** Multiset union cancels. */
  lemma Cancel(a: multiset<Guids.Guid>, b: multiset<Guids.Guid>, c: multiset<Guids.Guid>)
    requires a + c == b + c
    ensures a == b
  {
    assert forall o :: a[o] == (a + c)[o] - c[o];
    assert forall o :: b[o] == (b + c)[o] - c[o];
  }

  lemma DequeueIds(r: RetryQueues, k: string)
    requires RetryDequeue(r, k).Ok?
    ensures RetryIds(RetryDequeue(r, k).value.1) + multiset{RetryDequeue(r, k).value.0.id} == RetryIds(r)
  {
    var ms := Lookup(r, k).value;
    var r' := Store(r, k, ms[1..]);
    assert RetryDequeue(r, k).value == (ms[0], r');
    StoreIds(r, k, ms[1..]);
    MsgIdsCons(ms);
    calc {
      (RetryIds(r') + multiset{ms[0].id}) + MsgIds(ms[1..]);
      RetryIds(r') + MsgIds(ms);
      RetryIds(r) + MsgIds(ms[1..]);
    }
    Cancel(RetryIds(r') + multiset{ms[0].id}, RetryIds(r), MsgIds(ms[1..]));
  }

  lemma ReplaceHeadIds(r: RetryQueues, k: string, s: Msg)
    requires Lookup(r, k).Some? && |Lookup(r, k).value| > 0 && s.id == Lookup(r, k).value[0].id
    ensures RetryIds(ReplaceHead(r, k, s)) == RetryIds(r)
  {
    var ms := Lookup(r, k).value;
    var ns := [s] + ms[1..];
    assert ns[1..] == ms[1..];
    StoreIds(r, k, ns);
    MsgIdsCons(ms);
    MsgIdsCons(ns);
    assert MsgIds(ns) == MsgIds(ms);
    Cancel(RetryIds(ReplaceHead(r, k, s)), RetryIds(r), MsgIds(ms));
  }

  // ---------------------------------------------------------------------------
  // The queue
  // ---------------------------------------------------------------------------

  /** `signaled` is the state of the wait handle the sending loop blocks on. */
  datatype OutQueue = OutQueue(mq: seq<Msg>, retry: RetryQueues, signaled: bool, tcount: UInt16,
                               disk: Disk, outDir: string, sentDir: string, failDir: string)

  /** Every message the queue still holds, regular and retry, by id. */
  function Ids(q: OutQueue): multiset<Guids.Guid>
  {
    MsgIds(q.mq) + RetryIds(q.retry)
  }

  /** `message.To.ToFileNameString()`: the destination fingerprint that keys the retry queues. */
  function DestOf(m: Msg): (r: Result<string>)
    ensures r.Ok? <==> m.to.Some? && (m.to.value.transport == Addresses.Np || m.to.value.ipAddress.Some?)
  {
    if m.to.None? then Err(NullReference) else Addresses.ToFileNameString(m.to.value)
  }

  // ---------------------------------------------------------------------------
  // Start-up and Enqueue
  // ---------------------------------------------------------------------------

  function Hydrate(files: seq<string>, disk: Disk, resolve: Addresses.Resolver): (r: Result<seq<Msg>>)
    ensures r.Ok? ==> |r.value| <= |files|
    ensures r.Ok? ==> forall i :: 0 <= i < |r.value| ==> Sendable(r.value[i])
  {
    if |files| == 0 then Ok([])
    else if files[0] !in disk then Err(FileNotFound(files[0]))
    else
      var parsed :- OM.Parse(files[0], disk[files[0]], resolve);
      var rest :- Hydrate(files[1..], disk, resolve);
      Ok((if parsed.Some? then [parsed.value] else []) + rest)
  }

  /** `new OutboundQueue(name, msgDir)`: `out`, `sent` and `fail` under `msgDir`; the sorted
      `.omq` listing is read back in order, with empty retry queues. */
  function Open(msgDir: string, disk: Disk, listing: seq<string>, resolve: Addresses.Resolver)
    : (r: Result<OutQueue>)
    ensures r.Ok? ==> r.value.signaled == (|listing| > 0) && r.value.retry == [] && r.value.tcount == 0
    ensures r.Ok? ==> Good(r.value)
  {
    var mq :- Hydrate(Sorting.Sort(listing), disk, resolve);
    Ok(OutQueue(mq, [], |listing| > 0, 0, disk, PathCombine(msgDir, "out"),
                PathCombine(msgDir, "sent"), PathCombine(msgDir, "fail")))
  }

  /** `{Sent:yyyyMMddhhmmssfff}-{tcount:0000}-{To.ToFileNameString()}.omq` under `out`. */
  function PathFor(q: OutQueue, msg: Msg): (r: Result<string>)
    ensures r.Ok? <==> DestOf(msg).Ok?
  {
    var fp :- DestOf(msg);
    Ok(PathCombine(q.outDir, MessageFileName(DateTimes.Format17(msg.sent, true), q.tcount, fp, ".omq")))
  }

  /** `outboundQueue.Enqueue(msg)`: name the file, write the record, queue at the tail,
      advance the counter, set the handle. */
  function Enqueue(q: OutQueue, msg: Msg): (r: Result<OutQueue>)
    ensures r.Err? <==> DestOf(msg).Err?
    ensures r.Ok? ==> var stored := msg.(filename := Some(PathFor(q, msg).value));
      && r.value.mq == q.mq + [stored]
      && r.value.retry == q.retry
      && r.value.signaled
      && r.value.tcount == NextCount(q.tcount)
      && r.value.disk == q.disk[PathFor(q, msg).value := OM.ToLine(stored)]
  {
    var path :- PathFor(q, msg);
    var stored := msg.(filename := Some(path));
    Ok(q.(mq := q.mq + [stored], signaled := true, tcount := NextCount(q.tcount),
          disk := WriteAllText(q.disk, path, OM.ToLine(stored))))
  }

  // ---------------------------------------------------------------------------
  // Sending
  // ---------------------------------------------------------------------------

  /** How `SendMessage` reaches the destination. */
  datatype Channel = PipeTo(pipeName: Option<string>) | SocketTo(ip: Option<string>, port: Int32)

  /** The channel choice of `SendMessage`: a named pipe for a pipe-only destination and for a
      dual destination on the sender's own server, TCP otherwise. */
  function ChannelFor(m: Msg): (r: Result<Channel>)
    ensures r.Err? <==> m.to.None? || (m.to.value.transport == Addresses.Both && m.from.None?)
    ensures r.Ok? && r.value.PipeTo? ==> m.to.value.transport != Addresses.Tcp && r.value.pipeName == m.to.value.pipeName
    ensures r.Ok? && r.value.SocketTo? ==> m.to.value.transport != Addresses.Np
                                           && r.value.ip == m.to.value.ipAddress && r.value.port == m.to.value.port
    ensures r.Ok? && m.to.value.transport == Addresses.Both ==>
              (r.value.PipeTo? <==> m.to.value.serverName == m.from.value.serverName)
  {
    if m.to.None? then Err(NullReference)
    else
      var to := m.to.value;
      if to.transport == Addresses.Both then
        if m.from.None? then Err(NullReference)
        else if to.serverName == m.from.value.serverName then Ok(PipeTo(to.pipeName))
        else Ok(SocketTo(to.ipAddress, to.port))
      else if to.transport == Addresses.Np then Ok(PipeTo(to.pipeName))
      else Ok(SocketTo(to.ipAddress, to.port))
  }

  /** The remote `EnqueueMessage` call over a channel, connection included:
      `None` when it returned, otherwise what it threw. */
  type Deliver = (Channel, Msg) -> Option<Exn>

  /** `SendMessage(message)`: pick the channel, then call the service with the sender printed
      by `From.ToString()`; a null sender fails the call. */
  function SendMessage(m: Msg, deliver: Deliver): (e: Option<Exn>)
    ensures e.None? ==> ChannelFor(m).Ok? && m.from.Some? && deliver(ChannelFor(m).value, m).None?
  {
    match ChannelFor(m)
    case Err(x) => Some(x)
    case Ok(c) => if m.from.None? then Some(NullReference) else deliver(c, m)
  }

  /** `SendAttempts < (attemptTime - LastSendAttempt).TotalSeconds`: a message is retried at
      most once per second per attempt already made. */
  predicate Viable(m: Msg, now: DateTimes.DateTime)
  {
    m.sendAttempts * DateTimes.TicksPerSecond < DateTimes.ElapsedTicks(m.lastSendAttempt, now)
  }

  /** What the attempt writes on the message object before sending. */
  function Stamp(m: Msg, now: DateTimes.DateTime): (s: Msg)
    ensures s.id == m.id && s.filename == m.filename && s.from == m.from && s.to == m.to && s.sent == m.sent
  {
    m.(lastSendAttempt := now, sendAttempts := Inc32(m.sendAttempts))
  }

  /** The retry-queue scan: among non-empty queues, the key whose head was attempted longest
      ago, strictly before `oldest`, and is due again; `""` when none qualifies. */
  function ScanFrom(r: RetryQueues, now: DateTimes.DateTime, key: string, oldest: DateTimes.DateTime): (res: string)
    ensures res == key || exists i :: 0 <= i < |r| && r[i].0 == res && Due(r[i].1, now)
  {
    if |r| == 0 then key
    else
      var ms := r[0].1;
      if |ms| > 0 && DateTimes.Before(ms[0].lastSendAttempt, oldest) && Viable(ms[0], now) then
        var res := ScanFrom(r[1..], now, r[0].0, ms[0].lastSendAttempt);
        assert res == r[0].0 || exists i :: 1 <= i < |r| && r[i].0 == res && Due(r[i].1, now) by {
          if res != r[0].0 {
            var i :| 0 <= i < |r[1..]| && r[1..][i].0 == res && Due(r[1..][i].1, now);
            assert r[i + 1] == r[1..][i];
          }
        }
        res
      else
        var res := ScanFrom(r[1..], now, key, oldest);
        assert res == key || exists i :: 1 <= i < |r| && r[i].0 == res && Due(r[i].1, now) by {
          if res != key {
            var i :| 0 <= i < |r[1..]| && r[1..][i].0 == res && Due(r[1..][i].1, now);
            assert r[i + 1] == r[1..][i];
          }
        }
        res
  }

  /** A queue whose head is waiting to be retried now. */
  predicate Due(ms: seq<Msg>, now: DateTimes.DateTime)
  {
    |ms| > 0 && Viable(ms[0], now)
  }

  function OldestRetryKey(r: RetryQueues, now: DateTimes.DateTime): string
  {
    ScanFrom(r, now, "", now)
  }

  /** The ticks of the last attempt on queue `i`'s head (0 for a missing or empty queue). */
  function HeadTime(r: RetryQueues, i: int): int
  {
    if 0 <= i < |r| && |r[i].1| > 0 then DateTimes.Ticks(r[i].1[0].lastSendAttempt) else 0
  }

  /** Whether the scan, seeded with `oldest`, may pick queue `i`: its head was attempted before
      `oldest` and is viable now. */
  predicate Eligible(r: RetryQueues, i: int, now: DateTimes.DateTime, oldest: DateTimes.DateTime)
  {
    0 <= i < |r| && |r[i].1| > 0 && HeadTime(r, i) < DateTimes.Ticks(oldest) && Viable(r[i].1[0], now)
  }

  /** Dropping the first queue shifts every position down by one. */
  lemma EligibleTail(r: RetryQueues, j: int, now: DateTimes.DateTime, oldest: DateTimes.DateTime)
    requires |r| > 0 && 0 <= j < |r| - 1
    ensures Eligible(r[1..], j, now, oldest) <==> Eligible(r, j + 1, now, oldest)
    ensures HeadTime(r[1..], j) == HeadTime(r, j + 1)
  {
    assert r[1..][j] == r[j + 1];
  }

  /** Queue `i` is the scan's pick: eligible, with no eligible head attempted earlier, and
      strictly earlier than every eligible head before it (the first among ties). */
  predicate Selected(r: RetryQueues, i: int, now: DateTimes.DateTime, oldest: DateTimes.DateTime)
  {
    && Eligible(r, i, now, oldest)
    && (forall j :: 0 <= j < |r| && Eligible(r, j, now, oldest) ==> HeadTime(r, i) <= HeadTime(r, j))
    && (forall j :: 0 <= j < i && Eligible(r, j, now, oldest) ==> HeadTime(r, i) < HeadTime(r, j))
  }

  /** Behind an eligible first queue, the scan continues with that head's time as `oldest`:
      a later queue is eligible then iff it was eligible and is strictly older than the first. */
  lemma EligibleBehindHead(r: RetryQueues, j: int, now: DateTimes.DateTime, oldest: DateTimes.DateTime)
    requires Eligible(r, 0, now, oldest) && 0 <= j < |r| - 1
    ensures Eligible(r[1..], j, now, r[0].1[0].lastSendAttempt)
        <==> Eligible(r, j + 1, now, oldest) && HeadTime(r, j + 1) < HeadTime(r, 0)
  {
    EligibleTail(r, j, now, r[0].1[0].lastSendAttempt);
    EligibleTail(r, j, now, oldest);
  }

  /** A pick in the tail behind an ineligible first queue is a pick of the whole list. */
  lemma SelectedSkip(r: RetryQueues, i: int, now: DateTimes.DateTime, oldest: DateTimes.DateTime)
    requires |r| > 0 && !Eligible(r, 0, now, oldest) && Selected(r[1..], i, now, oldest)
    ensures Selected(r, i + 1, now, oldest)
  {
    EligibleTail(r, i, now, oldest);
    forall j | 0 <= j < |r| && Eligible(r, j, now, oldest)
      ensures HeadTime(r, i + 1) <= HeadTime(r, j) && (j < i + 1 ==> HeadTime(r, i + 1) < HeadTime(r, j))
    {
      EligibleTail(r, j - 1, now, oldest);
    }
  }

  /** A pick in the tail behind an eligible first queue, which it beats, is a pick of the whole list. */
  lemma SelectedBehindHead(r: RetryQueues, i: int, now: DateTimes.DateTime, oldest: DateTimes.DateTime)
    requires Eligible(r, 0, now, oldest) && Selected(r[1..], i, now, r[0].1[0].lastSendAttempt)
    ensures Selected(r, i + 1, now, oldest)
  {
    EligibleBehindHead(r, i, now, oldest);
    EligibleTail(r, i, now, oldest);
    forall j | 0 <= j < |r| && Eligible(r, j, now, oldest)
      ensures HeadTime(r, i + 1) <= HeadTime(r, j) && (j < i + 1 ==> HeadTime(r, i + 1) < HeadTime(r, j))
    {
      if j > 0 {
        EligibleBehindHead(r, j - 1, now, oldest);
        EligibleTail(r, j - 1, now, oldest);
      }
    }
  }

  /** An eligible first queue that no later queue beats is the pick. */
  lemma SelectedHead(r: RetryQueues, now: DateTimes.DateTime, oldest: DateTimes.DateTime)
    requires Eligible(r, 0, now, oldest)
    requires forall j :: 0 <= j < |r| - 1 ==> !Eligible(r[1..], j, now, r[0].1[0].lastSendAttempt)
    ensures Selected(r, 0, now, oldest)
  {
    forall j | 0 <= j < |r| && Eligible(r, j, now, oldest) ensures HeadTime(r, 0) <= HeadTime(r, j) {
      if j > 0 {
        EligibleBehindHead(r, j - 1, now, oldest);
      }
    }
  }

  /** With no eligible queue, the scan keeps its start key. */
  lemma {:induction false} ScanKeepsKey(r: RetryQueues, now: DateTimes.DateTime, key: string, oldest: DateTimes.DateTime)
    requires forall i :: 0 <= i < |r| ==> !Eligible(r, i, now, oldest)
    ensures ScanFrom(r, now, key, oldest) == key
    decreases |r|
  {
    if |r| > 0 {
      assert !Eligible(r, 0, now, oldest);
      forall j | 0 <= j < |r| - 1 ensures !Eligible(r[1..], j, now, oldest) {
        EligibleTail(r, j, now, oldest);
      }
      ScanKeepsKey(r[1..], now, key, oldest);
    }
  }

  /** The scan's selection rule: with no eligible queue the start key stays; otherwise the
      scan returns the key of the pick, the eligible queue whose head was attempted earliest,
      the first such on a tie. */
  lemma {:induction false} ScanSelects(r: RetryQueues, now: DateTimes.DateTime, key: string, oldest: DateTimes.DateTime)
    ensures (forall i :: 0 <= i < |r| ==> !Eligible(r, i, now, oldest)) ==> ScanFrom(r, now, key, oldest) == key
    ensures (exists i :: 0 <= i < |r| && Eligible(r, i, now, oldest)) ==>
              exists i :: Selected(r, i, now, oldest) && ScanFrom(r, now, key, oldest) == r[i].0
    decreases |r|
  {
    if forall i :: 0 <= i < |r| ==> !Eligible(r, i, now, oldest) {
      ScanKeepsKey(r, now, key, oldest);
    } else {
      var tail := r[1..];
      if Eligible(r, 0, now, oldest) {
        var t0 := r[0].1[0].lastSendAttempt;
        assert ScanFrom(r, now, key, oldest) == ScanFrom(tail, now, r[0].0, t0);
        ScanSelects(tail, now, r[0].0, t0);
        if forall j :: 0 <= j < |tail| ==> !Eligible(tail, j, now, t0) {
          SelectedHead(r, now, oldest);
        } else {
          var i :| Selected(tail, i, now, t0) && ScanFrom(tail, now, r[0].0, t0) == tail[i].0;
          SelectedBehindHead(r, i, now, oldest);
          assert tail[i] == r[i + 1];
        }
      } else {
        assert ScanFrom(r, now, key, oldest) == ScanFrom(tail, now, key, oldest);
        var k :| 0 <= k < |r| && Eligible(r, k, now, oldest);
        EligibleTail(r, k - 1, now, oldest);
        ScanSelects(tail, now, key, oldest);
        var i :| Selected(tail, i, now, oldest) && ScanFrom(tail, now, key, oldest) == tail[i].0;
        SelectedSkip(r, i, now, oldest);
        assert tail[i] == r[i + 1];
      }
    }
  }

  /** What one turn of the sending loop did. */
  datatype Outcome =
    | Blocked              // the handle is unset: the loop waits for the next Enqueue
    | Idle                 // nothing regular and no retry due
    | Diverted(m: Msg)     // queued behind earlier failures to its destination, nothing sent
    | Sent(m: Msg)         // delivered, logged to the sent log, file deleted
    | DeadLettered(m: Msg) // failing for over a day: logged to the fail log, file deleted
    | Kept(m: Msg, e: Exn) // the attempt threw; the catch left the message for a retry
    | Crashed(e: Exn)      // an exception escaped the loop: the sending task ends

  /** The body of the `try`: send, log as sent, and for a retried message pull it off its queue.
      Returns the exception that reached the `catch`, if any. */
  function TryBlock(q: OutQueue, s: Msg, dest: string, fromRegular: bool, stem: string, deliver: Deliver)
    : (r: (OutQueue, Option<Exn>))
    ensures r.0.mq == q.mq && r.0.signaled == q.signaled && r.0.tcount == q.tcount
    ensures r.0.sentDir == q.sentDir && r.0.failDir == q.failDir
    ensures SendMessage(s, deliver).Some? ==> r == (q, SendMessage(s, deliver))
  {
    match SendMessage(s, deliver)
    case Some(e) => (q, Some(e))
    case None =>
      var (d, e) := LogAndDelete(q.disk, q.sentDir, "sent", stem, OM.ToLine(s), s.filename);
      var q1 := q.(disk := d);
      if e.Some? then (q1, e)
      else if fromRegular then (q1, None)
      else
        match RetryDequeue(q1.retry, dest)
        case Ok(p) => (q1.(retry := p.1), None)
        case Err(x) => (q1, Some(x))
  }

  /** The `catch`: past a day since `Sent`, log as failed and pull a retried message off its
      queue; otherwise a message from the regular queue joins its destination's retry queue. */
  function Catch(q: OutQueue, s: Msg, dest: string, fromRegular: bool, stem: string, e: Exn): (r: (OutQueue, Outcome))
    ensures r.0.mq == q.mq && r.0.signaled == q.signaled
    ensures r.1.Kept? || r.1.DeadLettered? || r.1.Crashed?
    ensures r.1.DeadLettered? ==> DateTimes.ElapsedTicks(s.sent, s.lastSendAttempt) > DateTimes.TicksPerDay && r.1.m == s
    ensures r.1.Kept? ==> DateTimes.ElapsedTicks(s.sent, s.lastSendAttempt) <= DateTimes.TicksPerDay && r.1.m == s
    ensures r.1.Kept? && fromRegular ==> Lookup(r.0.retry, dest) == Some(Lookup(q.retry, dest).GetOr([]) + [s])
    ensures r.1.Kept? && !fromRegular ==> r.0 == q
  {
    if DateTimes.ElapsedTicks(s.sent, s.lastSendAttempt) > DateTimes.TicksPerDay then
      var (d, x) := LogAndDelete(q.disk, q.failDir, "fail", stem, OM.ToLine(s), s.filename);
      var q1 := q.(disk := d);
      if x.Some? then (q1, Crashed(x.value))
      else if fromRegular then (q1, DeadLettered(s))
      else
        match RetryDequeue(q1.retry, dest)
        case Ok(p) => (q1.(retry := p.1), DeadLettered(s))
        case Err(y) => (q1, Crashed(y))
    else if fromRegular then
      (q.(retry := Store(q.retry, dest, Lookup(q.retry, dest).GetOr([]) + [s])), Kept(s, e))
    else (q, Kept(s, e))
  }

  /** One attempt at `m`: stamp it (in place when it is the head of queue `home`), then the
      `try` and, if that threw, the `catch`. The hour stem of the log files is taken at `now`. */
  function Attempt(q: OutQueue, m: Msg, dest: string, fromRegular: bool, home: Option<string>,
                   now: DateTimes.DateTime, deliver: Deliver): (r: (OutQueue, Outcome))
    ensures r.0.mq == q.mq && r.0.signaled == q.signaled
    ensures r.1.Sent? || r.1.Kept? || r.1.DeadLettered? || r.1.Crashed?
    ensures r.1.Sent? || r.1.Kept? || r.1.DeadLettered? ==> r.1.m == Stamp(m, now)
    ensures r.1.DeadLettered? ==> DateTimes.ElapsedTicks(r.1.m.sent, now) > DateTimes.TicksPerDay
    ensures r.1.Kept? ==> DateTimes.ElapsedTicks(r.1.m.sent, now) <= DateTimes.TicksPerDay
  {
    var s := Stamp(m, now);
    var q1 := if home.Some? then q.(retry := ReplaceHead(q.retry, home.value, s)) else q;
    Settle(q1, s, dest, fromRegular, DateTimes.FormatHourStem(now, true), deliver)
  }

  /** The `try` on the stamped message and, if it threw, the `catch`. */
  function Settle(q: OutQueue, s: Msg, dest: string, fromRegular: bool, stem: string, deliver: Deliver)
    : (r: (OutQueue, Outcome))
    ensures r.0.mq == q.mq && r.0.signaled == q.signaled
    ensures r.1.Sent? || r.1.Kept? || r.1.DeadLettered? || r.1.Crashed?
    ensures r.1.Sent? || r.1.Kept? || r.1.DeadLettered? ==> r.1.m == s
    ensures r.1.DeadLettered? ==> DateTimes.ElapsedTicks(s.sent, s.lastSendAttempt) > DateTimes.TicksPerDay
    ensures r.1.Kept? ==> DateTimes.ElapsedTicks(s.sent, s.lastSendAttempt) <= DateTimes.TicksPerDay
  {
    var (q2, thrown) := TryBlock(q, s, dest, fromRegular, stem, deliver);
    if thrown.None? then (q2, Sent(s)) else Catch(q2, s, dest, fromRegular, stem, thrown.value)
  }

  /** A message taken from the regular queue. If its destination already has messages waiting
      it goes behind them, and their head is attempted instead when it is due. */
  function Regular(q: OutQueue, m: Msg, now: DateTimes.DateTime, deliver: Deliver): (r: (OutQueue, Outcome))
    ensures r.0.mq == q.mq && r.0.signaled == q.signaled
    ensures !r.1.Idle? && !r.1.Blocked?
    ensures r.1.DeadLettered? ==> DateTimes.ElapsedTicks(r.1.m.sent, now) > DateTimes.TicksPerDay
    ensures r.1.Kept? ==> DateTimes.ElapsedTicks(r.1.m.sent, now) <= DateTimes.TicksPerDay
    ensures DestOf(m).Err? ==> r == (q, Crashed(DestOf(m).error))
    ensures r.1.Diverted? ==>
              (r.1.m == m && DestOf(m).Ok? && Lookup(q.retry, DestOf(m).value).Some?
               && Lookup(r.0.retry, DestOf(m).value) == Some(Lookup(q.retry, DestOf(m).value).value + [m]))
  {
    match DestOf(m)
    case Err(e) => (q, Crashed(e))
    case Ok(dest) =>
      var waiting := Lookup(q.retry, dest);
      if waiting.Some? && |waiting.value| > 0 then
        var q1 := q.(retry := Store(q.retry, dest, waiting.value + [m]));
        var head := waiting.value[0];
        if Viable(head, now) then Attempt(q1, head, dest, false, Some(dest), now, deliver)
        else (q1, Diverted(m))
      else Attempt(q, m, dest, true, None, now, deliver)
  }

  /** The retry chosen by the scan. As written (`peek` false) the head is dequeued before the
      attempt; with `peek` it stays at the head until the attempt's outcome removes it. */
  function FromRetry(q: OutQueue, key: string, now: DateTimes.DateTime, deliver: Deliver, peek: bool)
    : (r: (OutQueue, Outcome))
    ensures r.0.mq == q.mq && r.0.signaled == q.signaled
    ensures r.1.Sent? || r.1.Kept? || r.1.DeadLettered? || r.1.Crashed?
    ensures r.1.DeadLettered? ==> DateTimes.ElapsedTicks(r.1.m.sent, now) > DateTimes.TicksPerDay
    ensures r.1.Kept? ==> DateTimes.ElapsedTicks(r.1.m.sent, now) <= DateTimes.TicksPerDay
  {
    match Lookup(q.retry, key)
    case None => (q, Crashed(KeyNotFound(key)))
    case Some(ms) =>
      if |ms| == 0 then (q, Crashed(InvalidOperation("Queue empty.")))
      else
        var head := ms[0];
        var q1 := if peek then q else q.(retry := Store(q.retry, key, ms[1..]));
        match DestOf(head)
        case Err(e) => (q1, Crashed(e))
        case Ok(dest) => Attempt(q1, head, dest, false, if peek then Some(key) else None, now, deliver)
  }

  /** One turn of `SendMessages`, with the scan dequeuing (`peek` false) or peeking. */
  function StepWith(q: OutQueue, now: DateTimes.DateTime, deliver: Deliver, peek: bool): (r: (OutQueue, Outcome))
    ensures !q.signaled ==> r == (q, Blocked)
    ensures q.signaled && |q.mq| > 0 ==> r.0.mq == q.mq[1..] && r.0.signaled
    ensures q.signaled && |q.mq| == 0 ==> r.0.mq == [] && !r.0.signaled
    ensures r.1.Idle? ==> OldestRetryKey(q.retry, now) == ""
    ensures r.1.DeadLettered? ==> DateTimes.ElapsedTicks(r.1.m.sent, now) > DateTimes.TicksPerDay
    ensures r.1.Kept? ==> DateTimes.ElapsedTicks(r.1.m.sent, now) <= DateTimes.TicksPerDay
  {
    if !q.signaled then (q, Blocked)
    else if |q.mq| > 0 then Regular(q.(mq := q.mq[1..]), q.mq[0], now, deliver)
    else
      var q1 := q.(signaled := false);
      var key := OldestRetryKey(q1.retry, now);
      if key == "" then (q1, Idle) else FromRetry(q1, key, now, deliver, peek)
  }

  /** One turn of the sending loop as the source has it. */
  function SendStep(q: OutQueue, now: DateTimes.DateTime, deliver: Deliver): (r: (OutQueue, Outcome))
    ensures !q.signaled ==> r == (q, Blocked)
    ensures r.1.DeadLettered? ==> DateTimes.ElapsedTicks(r.1.m.sent, now) > DateTimes.TicksPerDay
    ensures r.1.Kept? ==> DateTimes.ElapsedTicks(r.1.m.sent, now) <= DateTimes.TicksPerDay
  {
    StepWith(q, now, deliver, false)
  }

  /** One turn with the scan peeking at the chosen retry instead of dequeuing it. */
  function SendStepCorrected(q: OutQueue, now: DateTimes.DateTime, deliver: Deliver): (r: (OutQueue, Outcome))
    ensures !q.signaled ==> r == (q, Blocked)
    ensures r.1.DeadLettered? ==> DateTimes.ElapsedTicks(r.1.m.sent, now) > DateTimes.TicksPerDay
    ensures r.1.Kept? ==> DateTimes.ElapsedTicks(r.1.m.sent, now) <= DateTimes.TicksPerDay
  {
    StepWith(q, now, deliver, true)
  }

  // ---------------------------------------------------------------------------
  // Invariant
  // ---------------------------------------------------------------------------

  /** A message the loop can handle without an escaping exception: it has a file and a destination fingerprint. */
  predicate Sendable(m: Msg)
  {
    m.filename.Some? && DestOf(m).Ok?
  }

  /** A retry queue holds sendable messages for its own key. */
  predicate Keyed(ms: seq<Msg>, k: string)
  {
    forall j :: 0 <= j < |ms| ==> Sendable(ms[j]) && DestOf(ms[j]) == Ok(k)
  }

  predicate KeyedRetry(r: RetryQueues)
  {
    && DistinctKeys(r)
    && forall i :: 0 <= i < |r| ==> Keyed(r[i].1, r[i].0)
  }

  predicate Good(q: OutQueue)
  {
    && (forall i :: 0 <= i < |q.mq| ==> Sendable(q.mq[i]))
    && KeyedRetry(q.retry)
  }

  lemma LookupKeyed(r: RetryQueues, k: string)
    requires KeyedRetry(r) && Lookup(r, k).Some?
    ensures Keyed(Lookup(r, k).value, k)
  {
  }

  lemma {:induction false} StoreKeyed(r: RetryQueues, k: string, v: seq<Msg>)
    requires KeyedRetry(r) && Keyed(v, k)
    ensures KeyedRetry(Store(r, k, v))
  {
    var i := KeyIndex(r, k);
    var r' := Store(r, k, v);
    if i == |r| {
      forall a, b | 0 <= a < b < |r'| ensures r'[a].0 != r'[b].0 {
        if b == |r| { assert r'[a] == r[a]; }
        else { assert r'[a] == r[a] && r'[b] == r[b]; }
      }
      forall a | 0 <= a < |r'| ensures Keyed(r'[a].1, r'[a].0) {
        if a < |r| { assert r'[a] == r[a]; }
      }
    }
  }

  /** The key the scan picks, when it picks one, names a queue with a due head. */
  lemma ScanFindsQueue(r: RetryQueues, now: DateTimes.DateTime)
    requires DistinctKeys(r)
    requires OldestRetryKey(r, now) != ""
    ensures Lookup(r, OldestRetryKey(r, now)).Some? && Due(Lookup(r, OldestRetryKey(r, now)).value, now)
  {
    var k := OldestRetryKey(r, now);
    var i :| 0 <= i < |r| && r[i].0 == k && Due(r[i].1, now);
    assert KeyIndex(r, k) == i;
  }

  // ---------------------------------------------------------------------------
  // Conservation with the peeking scan
  // ---------------------------------------------------------------------------

  /** The queue `k` exists and `m` is its head. */
  predicate HeadOf(r: RetryQueues, k: string, m: Msg)
  {
    Lookup(r, k).Some? && |Lookup(r, k).value| > 0 && Lookup(r, k).value[0] == m
  }

  /** Only a failed send reaches the catch when the message has a file and a retried message is still queued. */
  lemma TryBlockFacts(q: OutQueue, s: Msg, dest: string, fromRegular: bool, stem: string, deliver: Deliver)
    requires s.filename.Some?
    requires !fromRegular ==> Lookup(q.retry, dest).Some? && |Lookup(q.retry, dest).value| > 0
    ensures var r := TryBlock(q, s, dest, fromRegular, stem, deliver);
      && (r.1.Some? ==> r.0 == q)
      && (r.1.None? ==> s.filename.value !in r.0.disk)
      && (r.1.None? && fromRegular ==> r.0.retry == q.retry)
      && (r.1.None? && !fromRegular ==> RetryDequeue(q.retry, dest).Ok? && r.0.retry == RetryDequeue(q.retry, dest).value.1)
  {
  }

  /** Settling a stamped message that is in hand (`fromRegular`) or at the head of its queue. */
  lemma SettleConserves(q: OutQueue, s: Msg, dest: string, fromRegular: bool, stem: string, deliver: Deliver)
    requires KeyedRetry(q.retry) && Sendable(s) && DestOf(s) == Ok(dest)
    requires !fromRegular ==> HeadOf(q.retry, dest, s)
    ensures var r := Settle(q, s, dest, fromRegular, stem, deliver);
      var held := RetryIds(q.retry) + (if fromRegular then multiset{s.id} else multiset{});
      && KeyedRetry(r.0.retry)
      && !r.1.Crashed?
      && ((r.1.Sent? || r.1.DeadLettered?) ==>
            r.1.m == s && RetryIds(r.0.retry) + multiset{s.id} == held && s.filename.value !in r.0.disk)
      && (r.1.Kept? ==> RetryIds(r.0.retry) == held)
  {
    TryBlockFacts(q, s, dest, fromRegular, stem, deliver);
    var (q2, thrown) := TryBlock(q, s, dest, fromRegular, stem, deliver);
    if thrown.None? {
      if !fromRegular {
        DequeueKeyed(q.retry, dest);
      }
    } else {
      assert q2 == q;
      if DateTimes.ElapsedTicks(s.sent, s.lastSendAttempt) > DateTimes.TicksPerDay {
        if !fromRegular {
          var (d, x) := LogAndDelete(q.disk, q.failDir, "fail", stem, OM.ToLine(s), s.filename);
          DequeueKeyed(q.retry, dest);
        }
      } else if fromRegular {
        AppendKeyed(q.retry, dest, s);
      }
    }
  }

  /** Pulling the head off a queue keeps the dictionary well keyed and removes one id. */
  lemma DequeueKeyed(r: RetryQueues, k: string)
    requires KeyedRetry(r) && RetryDequeue(r, k).Ok?
    ensures KeyedRetry(RetryDequeue(r, k).value.1)
    ensures RetryIds(RetryDequeue(r, k).value.1) + multiset{RetryDequeue(r, k).value.0.id} == RetryIds(r)
  {
    DequeueIds(r, k);
    LookupKeyed(r, k);
    StoreKeyed(r, k, Lookup(r, k).value[1..]);
  }

  /** Adding a message behind its destination's queue (made if absent) adds its id. */
  lemma AppendKeyed(r: RetryQueues, k: string, s: Msg)
    requires KeyedRetry(r) && Sendable(s) && DestOf(s) == Ok(k)
    ensures var r' := Store(r, k, Lookup(r, k).GetOr([]) + [s]);
      KeyedRetry(r') && RetryIds(r') == RetryIds(r) + multiset{s.id}
  {
    var prior := Lookup(r, k).GetOr([]);
    assert Keyed(prior + [s], k) by {
      if Lookup(r, k).Some? { LookupKeyed(r, k); }
      forall j | 0 <= j < |prior + [s]| ensures Sendable((prior + [s])[j]) && DestOf((prior + [s])[j]) == Ok(k) {
        if j < |prior| { assert (prior + [s])[j] == prior[j]; }
      }
    }
    StoreKeyed(r, k, prior + [s]);
    StoreIds(r, k, prior + [s]);
    MsgIdsAppend(prior, [s]);
    assert MsgIds([s]) == multiset{s.id} by { assert IdsOf([s]) == [s.id]; }
    Cancel(RetryIds(Store(r, k, prior + [s])), RetryIds(r) + multiset{s.id}, MsgIds(prior));
  }

  /** Stamping the head in place keeps the dictionary well keyed and its ids. */
  lemma StampHeadKeyed(r: RetryQueues, k: string, m: Msg, now: DateTimes.DateTime)
    requires KeyedRetry(r) && HeadOf(r, k, m)
    ensures var r' := ReplaceHead(r, k, Stamp(m, now));
      KeyedRetry(r') && RetryIds(r') == RetryIds(r) && HeadOf(r', k, Stamp(m, now))
  {
    var s := Stamp(m, now);
    var ms := Lookup(r, k).value;
    LookupKeyed(r, k);
    assert Keyed([s] + ms[1..], k) by {
      forall j | 0 <= j < |[s] + ms[1..]| ensures Sendable(([s] + ms[1..])[j]) && DestOf(([s] + ms[1..])[j]) == Ok(k) {
        if j > 0 { assert ([s] + ms[1..])[j] == ms[j]; }
      }
    }
    StoreKeyed(r, k, [s] + ms[1..]);
    ReplaceHeadIds(r, k, s);
  }

  /** An attempt never lets an exception escape, keeps the retry queues well keyed, and accounts
      for every id: the attempted message leaves exactly when it was sent or dead-lettered. */
  lemma AttemptConserves(q: OutQueue, m: Msg, dest: string, fromRegular: bool, home: Option<string>,
                         now: DateTimes.DateTime, deliver: Deliver)
    requires KeyedRetry(q.retry) && Sendable(m) && DestOf(m) == Ok(dest)
    requires fromRegular ==> home.None?
    requires !fromRegular ==> home == Some(dest) && HeadOf(q.retry, dest, m)
    ensures var r := Attempt(q, m, dest, fromRegular, home, now, deliver);
      var held := RetryIds(q.retry) + (if fromRegular then multiset{m.id} else multiset{});
      && KeyedRetry(r.0.retry)
      && !r.1.Crashed?
      && ((r.1.Sent? || r.1.DeadLettered?) ==>
            r.1.m.id == m.id && RetryIds(r.0.retry) + multiset{m.id} == held && m.filename.value !in r.0.disk)
      && (r.1.Kept? ==> RetryIds(r.0.retry) == held)
  {
    var s := Stamp(m, now);
    var q1 := if home.Some? then q.(retry := ReplaceHead(q.retry, home.value, s)) else q;
    if !fromRegular {
      StampHeadKeyed(q.retry, dest, m, now);
    }
    SettleConserves(q1, s, dest, fromRegular, DateTimes.FormatHourStem(now, true), deliver);
  }

  /** A regular message ends up sent, dead-lettered, or held in a retry queue, and so does the
      retry head attempted in its place. */
  lemma RegularConserves(q: OutQueue, m: Msg, now: DateTimes.DateTime, deliver: Deliver)
    requires KeyedRetry(q.retry) && Sendable(m)
    ensures var r := Regular(q, m, now, deliver);
      && KeyedRetry(r.0.retry)
      && !r.1.Crashed?
      && ((r.1.Sent? || r.1.DeadLettered?) ==>
            RetryIds(r.0.retry) + multiset{r.1.m.id} == RetryIds(q.retry) + multiset{m.id}
            && r.1.m.filename.Some? && r.1.m.filename.value !in r.0.disk)
      && (!(r.1.Sent? || r.1.DeadLettered?) ==> RetryIds(r.0.retry) == RetryIds(q.retry) + multiset{m.id})
  {
    var dest := DestOf(m).value;
    var waiting := Lookup(q.retry, dest);
    if waiting.Some? && |waiting.value| > 0 {
      DivertConserves(q, m, dest, now, deliver);
    } else {
      assert Regular(q, m, now, deliver) == Attempt(q, m, dest, true, None, now, deliver);
      AttemptConserves(q, m, dest, true, None, now, deliver);
    }
  }

  lemma DivertConserves(q: OutQueue, m: Msg, dest: string, now: DateTimes.DateTime, deliver: Deliver)
    requires KeyedRetry(q.retry) && Sendable(m) && DestOf(m) == Ok(dest)
    requires Lookup(q.retry, dest).Some? && |Lookup(q.retry, dest).value| > 0
    ensures var r := Regular(q, m, now, deliver);
      && KeyedRetry(r.0.retry)
      && !r.1.Crashed?
      && ((r.1.Sent? || r.1.DeadLettered?) ==>
            RetryIds(r.0.retry) + multiset{r.1.m.id} == RetryIds(q.retry) + multiset{m.id}
            && r.1.m.filename.Some? && r.1.m.filename.value !in r.0.disk)
      && (!(r.1.Sent? || r.1.DeadLettered?) ==> RetryIds(r.0.retry) == RetryIds(q.retry) + multiset{m.id})
  {
    var waiting := Lookup(q.retry, dest).value;
    AppendKeyed(q.retry, dest, m);
    var q1 := q.(retry := Store(q.retry, dest, waiting + [m]));
    var head := waiting[0];
    assert Lookup(q1.retry, dest).value == waiting + [m];
    assert HeadOf(q1.retry, dest, head);
    LookupKeyed(q.retry, dest);
    if Viable(head, now) {
      assert Regular(q, m, now, deliver) == Attempt(q1, head, dest, false, Some(dest), now, deliver);
      AttemptConserves(q1, head, dest, false, Some(dest), now, deliver);
    } else {
      assert Regular(q, m, now, deliver) == (q1, Diverted(m));
    }
  }

  /** With the peeking scan, the retried head leaves its queue only when sent or dead-lettered. */
  lemma FromRetryConserves(q: OutQueue, key: string, now: DateTimes.DateTime, deliver: Deliver)
    requires KeyedRetry(q.retry) && Lookup(q.retry, key).Some? && |Lookup(q.retry, key).value| > 0
    ensures var r := FromRetry(q, key, now, deliver, true);
      && KeyedRetry(r.0.retry)
      && !r.1.Crashed?
      && ((r.1.Sent? || r.1.DeadLettered?) ==>
            RetryIds(r.0.retry) + multiset{r.1.m.id} == RetryIds(q.retry)
            && r.1.m.filename.Some? && r.1.m.filename.value !in r.0.disk)
      && (!(r.1.Sent? || r.1.DeadLettered?) ==> RetryIds(r.0.retry) == RetryIds(q.retry))
  {
    var head := Lookup(q.retry, key).value[0];
    LookupKeyed(q.retry, key);
    AttemptConserves(q, head, key, false, Some(key), now, deliver);
  }

  /** With the peeking scan, no turn of the loop loses a message: from a good queue the loop
      never crashes, the queue stays good, and a message leaves the queues exactly when it is
      sent or dead-lettered, its file then gone from disk. */
  lemma CorrectedStepConserves(q: OutQueue, now: DateTimes.DateTime, deliver: Deliver)
    requires Good(q)
    ensures var r := SendStepCorrected(q, now, deliver);
      && Good(r.0)
      && !r.1.Crashed?
      && ((r.1.Sent? || r.1.DeadLettered?) ==>
            Ids(r.0) + multiset{r.1.m.id} == Ids(q) && r.1.m.filename.Some? && r.1.m.filename.value !in r.0.disk)
      && (!(r.1.Sent? || r.1.DeadLettered?) ==> Ids(r.0) == Ids(q))
  {
    if q.signaled {
      if |q.mq| > 0 {
        RegularStepConserves(q, now, deliver);
      } else {
        var q1 := q.(signaled := false);
        var key := OldestRetryKey(q1.retry, now);
        if key != "" {
          ScanFindsQueue(q1.retry, now);
          assert SendStepCorrected(q, now, deliver) == FromRetry(q1, key, now, deliver, true);
          FromRetryConserves(q1, key, now, deliver);
        }
      }
    }
  }

  lemma RegularStepConserves(q: OutQueue, now: DateTimes.DateTime, deliver: Deliver)
    requires Good(q) && q.signaled && |q.mq| > 0
    ensures var r := SendStepCorrected(q, now, deliver);
      && Good(r.0)
      && !r.1.Crashed?
      && ((r.1.Sent? || r.1.DeadLettered?) ==>
            Ids(r.0) + multiset{r.1.m.id} == Ids(q) && r.1.m.filename.Some? && r.1.m.filename.value !in r.0.disk)
      && (!(r.1.Sent? || r.1.DeadLettered?) ==> Ids(r.0) == Ids(q))
  {
    var m := q.mq[0];
    var q0 := q.(mq := q.mq[1..]);
    var r := Regular(q0, m, now, deliver);
    assert SendStepCorrected(q, now, deliver) == r;
    RegularConserves(q0, m, now, deliver);
    MsgIdsCons(q.mq);
    var rest := MsgIds(q.mq[1..]);
    assert Ids(q) == rest + RetryIds(q.retry) + multiset{m.id};
    assert Ids(r.0) == rest + RetryIds(r.0.retry);
    forall i | 0 <= i < |r.0.mq| ensures Sendable(r.0.mq[i]) {
      assert r.0.mq[i] == q.mq[i + 1];
    }
    assert Good(r.0);
    if r.1.Sent? || r.1.DeadLettered? {
      calc {
        Ids(r.0) + multiset{r.1.m.id};
        rest + (RetryIds(r.0.retry) + multiset{r.1.m.id});
        rest + (RetryIds(q.retry) + multiset{m.id});
        Ids(q);
      }
    } else {
      calc {
        Ids(r.0);
        rest + RetryIds(r.0.retry);
        rest + (RetryIds(q.retry) + multiset{m.id});
        Ids(q);
      }
    }
  }

  // ---------------------------------------------------------------------------
  // The scan as written
  // ---------------------------------------------------------------------------

  /** The scan picks the only queue when its head is due and older than the clock. */
  lemma ScanSingle(k: string, ms: seq<Msg>, now: DateTimes.DateTime)
    requires |ms| > 0 && Viable(ms[0], now) && DateTimes.Before(ms[0].lastSendAttempt, now)
    ensures OldestRetryKey([(k, ms)], now) == k
  {
    assert [(k, ms)][1..] == [];
  }

  /** The ids of a dictionary with a single queue. */
  lemma SingleIds(k: string, ms: seq<Msg>)
    ensures RetryIds([(k, ms)]) == MsgIds(ms)
  {
    assert [(k, ms)][1..] == [];
  }

  /** With nothing regular and one due queue, the scan as written dequeues its head and attempts it in hand. */
  lemma ScanPath(q: OutQueue, now: DateTimes.DateTime, deliver: Deliver, k: string, ms: seq<Msg>)
    requires q.signaled && |q.mq| == 0 && q.retry == [(k, ms)] && k != ""
    requires |ms| > 0 && Viable(ms[0], now) && DateTimes.Before(ms[0].lastSendAttempt, now) && DestOf(ms[0]) == Ok(k)
    ensures SendStep(q, now, deliver)
            == Settle(q.(signaled := false, retry := [(k, ms[1..])]), Stamp(ms[0], now), k, false,
                      DateTimes.FormatHourStem(now, true), deliver)
    ensures SendStepCorrected(q, now, deliver)
            == Settle(q.(signaled := false, retry := [(k, [Stamp(ms[0], now)] + ms[1..])]), Stamp(ms[0], now), k, false,
                      DateTimes.FormatHourStem(now, true), deliver)
  {
    ScanSingle(k, ms, now);
    var q1 := q.(signaled := false);
    assert KeyIndex(q1.retry, k) == 0;
    assert Lookup(q1.retry, k) == Some(ms);
    assert Store(q1.retry, k, ms[1..]) == [(k, ms[1..])];
    assert SendStep(q, now, deliver) == FromRetry(q1, key := k, now := now, deliver := deliver, peek := false);
    assert ReplaceHead(q1.retry, k, Stamp(ms[0], now)) == [(k, [Stamp(ms[0], now)] + ms[1..])];
  }

  /** A retried message that goes through is logged and pulled off the front of queue `k`. */
  lemma SettleRetrySent(q: OutQueue, s: Msg, k: string, stem: string, deliver: Deliver)
    requires SendMessage(s, deliver).None? && s.filename.Some?
    requires RetryDequeue(q.retry, k).Ok?
    ensures var r := Settle(q, s, k, false, stem, deliver);
      && r.1 == Sent(s)
      && r.0.retry == RetryDequeue(q.retry, k).value.1
      && r.0.disk.Keys == (q.disk.Keys + {LogPath(q.sentDir, "sent", stem)}) - {s.filename.value}
  {
  }

  /** As written, a successful retry chosen by the scan is dequeued twice: the message behind
      it disappears from memory while its file stays on disk, so it is neither sent nor logged
      until a restart reads the file again. */
  lemma ScanSuccessDropsNext(q: OutQueue, now: DateTimes.DateTime, deliver: Deliver,
                             k: string, m1: Msg, m2: Msg, rest: seq<Msg>)
    requires q.signaled && |q.mq| == 0 && q.retry == [(k, [m1, m2] + rest)] && k != ""
    requires Viable(m1, now) && DateTimes.Before(m1.lastSendAttempt, now)
    requires DestOf(m1) == Ok(k) && m1.filename.Some?
    requires SendMessage(Stamp(m1, now), deliver).None?
    requires m2.filename.Some? && m2.filename.value in q.disk && m2.filename != m1.filename
    ensures var r := SendStep(q, now, deliver);
      && r.1 == Sent(Stamp(m1, now))
      && r.0.retry == [(k, rest)]
      && m2.filename.value in r.0.disk
      && Ids(r.0) + multiset{m1.id, m2.id} == Ids(q)
  {
    var ms := [m1, m2] + rest;
    assert ms[1..] == [m2] + rest;
    ScanPath(q, now, deliver, k, ms);
    SettleAfterDoubleDequeue(q, Stamp(m1, now), k, m1, m2, rest, DateTimes.FormatHourStem(now, true), deliver);
  }

  /** The settling half of `ScanSuccessDropsNext`: the queue the scan left, with `m2` at its
      head, loses `m2` as well when the send is settled. */
  lemma SettleAfterDoubleDequeue(q: OutQueue, s: Msg, k: string, m1: Msg, m2: Msg, rest: seq<Msg>,
                                 stem: string, deliver: Deliver)
    requires |q.mq| == 0 && q.retry == [(k, [m1, m2] + rest)]
    requires SendMessage(s, deliver).None? && s.filename == m1.filename && s.filename.Some? && s.id == m1.id
    requires m2.filename.Some? && m2.filename.value in q.disk && m2.filename != m1.filename
    ensures var r := Settle(q.(signaled := false, retry := [(k, [m2] + rest)]), s, k, false, stem, deliver);
      && r.1 == Sent(s)
      && r.0.retry == [(k, rest)]
      && m2.filename.value in r.0.disk
      && Ids(r.0) + multiset{m1.id, m2.id} == Ids(q)
  {
    var qa := q.(signaled := false, retry := [(k, [m2] + rest)]);
    assert KeyIndex(qa.retry, k) == 0;
    assert RetryDequeue(qa.retry, k).value.1 == [(k, rest)];
    SettleRetrySent(qa, s, k, stem, deliver);
    var r := Settle(qa, s, k, false, stem, deliver);
    assert m2.filename.value != s.filename.value;
    assert m2.filename.value in r.0.disk;
    TwoHeadIds(k, m1, m2, rest);
    RetryOnlyIds(q);
    RetryOnlyIds(r.0);
  }

  lemma TwoHeadIds(k: string, m1: Msg, m2: Msg, rest: seq<Msg>)
    ensures RetryIds([(k, rest)]) + multiset{m1.id, m2.id} == RetryIds([(k, [m1, m2] + rest)])
  {
    var ms := [m1, m2] + rest;
    SingleIds(k, ms);
    SingleIds(k, rest);
    MsgIdsCons(ms);
    MsgIdsCons(ms[1..]);
    assert ms[1..][1..] == rest;
  }

  /** With the regular queue empty, the queue's ids are those of its retry queues. */
  lemma RetryOnlyIds(q: OutQueue)
    requires |q.mq| == 0
    ensures Ids(q) == RetryIds(q.retry)
  {
    assert IdsOf(q.mq) == [];
  }

  /** With the peeking scan the same turn leaves the next message at the head of its queue. */
  lemma ScanSuccessKeepsNext(q: OutQueue, now: DateTimes.DateTime, deliver: Deliver,
                             k: string, m1: Msg, m2: Msg, rest: seq<Msg>)
    requires q.signaled && |q.mq| == 0 && q.retry == [(k, [m1, m2] + rest)] && k != ""
    requires Viable(m1, now) && DateTimes.Before(m1.lastSendAttempt, now)
    requires DestOf(m1) == Ok(k) && m1.filename.Some?
    requires SendMessage(Stamp(m1, now), deliver).None?
    ensures var r := SendStepCorrected(q, now, deliver);
      r.1 == Sent(Stamp(m1, now)) && r.0.retry == [(k, [m2] + rest)]
  {
    var ms := [m1, m2] + rest;
    assert ms[1..] == [m2] + rest;
    ScanPath(q, now, deliver, k, ms);
    SettleAfterPeek(q, Stamp(m1, now), k, [m2] + rest, DateTimes.FormatHourStem(now, true), deliver);
  }

  /** The settling half of `ScanSuccessKeepsNext`: the stamped head is pulled off and the
      rest of its queue stays. */
  lemma SettleAfterPeek(q: OutQueue, s: Msg, k: string, tail: seq<Msg>, stem: string, deliver: Deliver)
    requires SendMessage(s, deliver).None? && s.filename.Some?
    ensures var r := Settle(q.(signaled := false, retry := [(k, [s] + tail)]), s, k, false, stem, deliver);
      r.1 == Sent(s) && r.0.retry == [(k, tail)]
  {
    var qb := q.(signaled := false, retry := [(k, [s] + tail)]);
    assert KeyIndex(qb.retry, k) == 0;
    assert ([s] + tail)[1..] == tail;
    assert RetryDequeue(qb.retry, k).value.1 == [(k, tail)];
    SettleRetrySent(qb, s, k, stem, deliver);
  }

  /** As written, a retry chosen by the scan that fails again is dropped: it was dequeued
      before the attempt and only a regular message is put back. Its file stays on disk.
      The peeking scan keeps it, stamped, at the head of its queue. */
  lemma ScanFailureForgets(q: OutQueue, now: DateTimes.DateTime, deliver: Deliver, k: string, m1: Msg)
    requires q.signaled && |q.mq| == 0 && q.retry == [(k, [m1])] && k != ""
    requires Viable(m1, now) && DateTimes.Before(m1.lastSendAttempt, now)
    requires DestOf(m1) == Ok(k) && m1.filename.Some? && m1.filename.value in q.disk
    requires SendMessage(Stamp(m1, now), deliver).Some?
    requires DateTimes.ElapsedTicks(m1.sent, now) <= DateTimes.TicksPerDay
    ensures var r := SendStep(q, now, deliver);
      && r.1.Kept?
      && r.0.retry == [(k, [])]
      && Ids(r.0) == multiset{} && Ids(q) == multiset{m1.id}
      && m1.filename.value in r.0.disk
    ensures var r := SendStepCorrected(q, now, deliver);
      r.1.Kept? && r.0.retry == [(k, [Stamp(m1, now)])] && Ids(r.0) == Ids(q)
  {
    var ms := [m1];
    ScanPath(q, now, deliver, k, ms);
    var s := Stamp(m1, now);
    assert ms[1..] == [];
    assert [s] + ms[1..] == [s];
    var none: seq<Msg> := [];
    assert IdsOf(none) == [] && IdsOf(q.mq) == [];
    SingleIds(k, ms);
    SingleIds(k, none);
    SingleIds(k, [s]);
    MsgIdsCons(ms);
    MsgIdsCons([s]);
    assert [s][1..] == none;
  }

  /** Once a turn finds the regular queue empty it resets the handle, so the next turn blocks
      until an `Enqueue`: retries are only attempted on turns that new messages start. */
  lemma RetriesWaitForEnqueue(q: OutQueue, now: DateTimes.DateTime, deliver: Deliver,
                              later: DateTimes.DateTime, deliver': Deliver)
    requires q.signaled && |q.mq| == 0
    ensures !SendStep(q, now, deliver).0.signaled
    ensures SendStep(SendStep(q, now, deliver).0, later, deliver').1 == Blocked
  {
  }

  /** A regular message whose destination has nothing waiting is the one attempted: the queue is served in order. */
  lemma RegularInOrder(q: OutQueue, now: DateTimes.DateTime, deliver: Deliver)
    requires q.signaled && |q.mq| > 0 && DestOf(q.mq[0]).Ok?
    requires Lookup(q.retry, DestOf(q.mq[0]).value).None? || |Lookup(q.retry, DestOf(q.mq[0]).value).value| == 0
    ensures var r := SendStep(q, now, deliver);
      r.1.Sent? || r.1.Kept? || r.1.DeadLettered? || r.1.Crashed?
    ensures var r := SendStep(q, now, deliver);
      (r.1.Sent? || r.1.Kept? || r.1.DeadLettered?) ==> r.1.m == Stamp(q.mq[0], now)
  {
    var dest := DestOf(q.mq[0]).value;
    assert SendStep(q, now, deliver) == Attempt(q.(mq := q.mq[1..]), q.mq[0], dest, true, None, now, deliver);
  }

  // ---------------------------------------------------------------------------
  // Enqueue
  // ---------------------------------------------------------------------------

  /** Enqueue keeps the queue good and adds exactly the new message's id. */
  lemma EnqueueGood(q: OutQueue, msg: Msg)
    requires Good(q) && Enqueue(q, msg).Ok?
    ensures Good(Enqueue(q, msg).value)
    ensures Ids(Enqueue(q, msg).value) == Ids(q) + multiset{msg.id}
  {
    var r := Enqueue(q, msg).value;
    var stored := msg.(filename := Some(PathFor(q, msg).value));
    forall i | 0 <= i < |r.mq| ensures Sendable(r.mq[i]) {
      if i < |q.mq| { assert r.mq[i] == q.mq[i]; }
    }
    MsgIdsAppend(q.mq, [stored]);
    assert IdsOf([stored]) == [msg.id];
  }

  /** The record `Enqueue` writes reads back as the queued message, except that its `Sent`
      is folded onto the morning. */
  lemma EnqueueDurable(q: OutQueue, msg: Msg, resolve: Addresses.Resolver)
    requires Enqueue(q, msg).Ok? && OM.Printable(msg, resolve)
    ensures var path := PathFor(q, msg).value;
      var r := Enqueue(q, msg).value;
      path in r.disk && OM.Parse(path, r.disk[path], resolve) == Ok(Some(OM.Reread(r.mq[|q.mq|], path, true)))
  {
    var path := PathFor(q, msg).value;
    OM.RoundTrip(msg.(filename := Some(path)), path, resolve);
  }
}
