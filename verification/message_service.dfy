/** `MessageService`, the receiving end of the transport: a remote sender's message becomes
    an inbound `Message` stamped with the local clock and queued. Two versions exist: the
    newer `EnqueueString`/`EnqueueBytes` pair, which carries the send attempt, and the older
    pair of `EnqueueMessage` overloads, which does not. */
module MessageServices {
  import opened Base
  import opened Text
  import Guids
  import Addresses
  import DateTimes
  import Messages
  import InboundQueues

  /** The inbound message an accepted call builds. `Received` is the local clock reading `now`. */
  function Build(id: Guids.Guid, from: Addresses.Address, sent: DateTimes.DateTime, now: DateTimes.DateTime,
                 attempt: Int32, typeName: Option<string>, bytes: Option<seq<Byte>>, text: Option<string>)
    : (m: Messages.Message)
    ensures m.filename.None? && m.from == Some(from)
  {
    Messages.Message(None, id, Some(from), sent, now, attempt, typeName, bytes, text)
  }

  /** Read the sender, build the message and queue it; the result is the payload length.
      A null sender fails inside `Address.FromString`. */
  function Accept(q: InboundQueues.InQueue, id: Guids.Guid, from: Option<string>, sent: DateTimes.DateTime,
                  now: DateTimes.DateTime, attempt: Int32, typeName: Option<string>,
                  bytes: Option<seq<Byte>>, text: Option<string>, length: nat, resolve: Addresses.Resolver)
    : (r: Result<(InboundQueues.InQueue, nat)>)
    ensures r.Ok? ==> r.value.1 == length
    ensures from.None? ==> r == Err(NullReference)
  {
    if from.None? then Err(NullReference)
    else
      var a :- Addresses.FromString(from.value, resolve);
      match InboundQueues.Enqueue(q, Build(id, a, sent, now, attempt, typeName, bytes, text))
      case Ok(q1) => Ok((q1, length))
      case Err(e) => Err(e)
  }

  // ---------------------------------------------------------------------------
  // Newer version
  // ---------------------------------------------------------------------------

  /** The guard of `EnqueueString`: .NET 3.5 builds lack `IsNullOrWhiteSpace` and test only for null or empty. */
  predicate SkipsText(message: Option<string>, net35: bool)
  {
    if net35 then IsNullOrEmpty(message) else IsNullOrWhiteSpace(message)
  }

  /** `EnqueueString`: a skipped text returns 0 and queues nothing; otherwise the text is
      queued as a string message and its `Length`, in UTF-16 code units, returned. */
  function EnqueueString(q: InboundQueues.InQueue, id: Guids.Guid, from: Option<string>, sent: DateTimes.DateTime,
                         sendAttempt: Int32, typeName: Option<string>, message: Option<string>,
                         now: DateTimes.DateTime, net35: bool, resolve: Addresses.Resolver)
    : (r: Result<(InboundQueues.InQueue, nat)>)
    ensures SkipsText(message, net35) ==> r == Ok((q, 0))
    ensures !SkipsText(message, net35) && r.Ok? ==>
              && r.value.1 == Utf16Length(message.value) && r.value.1 > 0
              && |r.value.0.mq| == |q.mq| + 1 && r.value.0.mq[..|q.mq|] == q.mq
              && var m := r.value.0.mq[|q.mq|];
                 m.id == id && m.sent == sent && m.received == now && m.sendAttempt == sendAttempt
                 && m.typeName == typeName && m.text == message && m.bytes.None?
  {
    if SkipsText(message, net35) then Ok((q, 0))
    else Accept(q, id, from, sent, now, sendAttempt, typeName, None, message, Utf16Length(message.value), resolve)
  }

  /** `EnqueueBytes`: a null or empty payload returns 0 and queues nothing. */
  function EnqueueBytes(q: InboundQueues.InQueue, id: Guids.Guid, from: Option<string>, sent: DateTimes.DateTime,
                        sendAttempt: Int32, typeName: Option<string>, message: Option<seq<Byte>>,
                        now: DateTimes.DateTime, resolve: Addresses.Resolver)
    : (r: Result<(InboundQueues.InQueue, nat)>)
    ensures (message.None? || |message.value| == 0) ==> r == Ok((q, 0))
    ensures message.Some? && |message.value| > 0 && r.Ok? ==>
              && r.value.1 == |message.value|
              && |r.value.0.mq| == |q.mq| + 1 && r.value.0.mq[..|q.mq|] == q.mq
              && var m := r.value.0.mq[|q.mq|];
                 m.id == id && m.sent == sent && m.received == now && m.sendAttempt == sendAttempt
                 && m.typeName == typeName && m.bytes == message && m.text.None?
  {
    if message.None? || |message.value| == 0 then Ok((q, 0))
    else Accept(q, id, from, sent, now, sendAttempt, typeName, message, None, |message.value|, resolve)
  }

  // ---------------------------------------------------------------------------
  // Older version
  // ---------------------------------------------------------------------------

  /** The text overload of the older `EnqueueMessage`: no send attempt is carried, so it stays 0. */
  function EnqueueMessageText(q: InboundQueues.InQueue, id: Guids.Guid, from: Option<string>, sent: DateTimes.DateTime,
                              typeName: Option<string>, message: Option<string>, now: DateTimes.DateTime,
                              resolve: Addresses.Resolver)
    : (r: Result<(InboundQueues.InQueue, nat)>)
    ensures IsNullOrWhiteSpace(message) ==> r == Ok((q, 0))
    ensures !IsNullOrWhiteSpace(message) && r.Ok? ==>
              r.value.1 == Utf16Length(message.value) && |r.value.0.mq| == |q.mq| + 1
              && r.value.0.mq[|q.mq|].sendAttempt == 0 && r.value.0.mq[|q.mq|].text == message
  {
    if IsNullOrWhiteSpace(message) then Ok((q, 0))
    else Accept(q, id, from, sent, now, 0, typeName, None, message, Utf16Length(message.value), resolve)
  }

  /** The byte overload of the older `EnqueueMessage`. */
  function EnqueueMessageBytes(q: InboundQueues.InQueue, id: Guids.Guid, from: Option<string>, sent: DateTimes.DateTime,
                               typeName: Option<string>, message: Option<seq<Byte>>, now: DateTimes.DateTime,
                               resolve: Addresses.Resolver)
    : (r: Result<(InboundQueues.InQueue, nat)>)
    ensures (message.None? || |message.value| == 0) ==> r == Ok((q, 0))
    ensures message.Some? && |message.value| > 0 && r.Ok? ==>
              r.value.1 == |message.value| && |r.value.0.mq| == |q.mq| + 1
              && r.value.0.mq[|q.mq|].sendAttempt == 0
  {
    if message.None? || |message.value| == 0 then Ok((q, 0))
    else Accept(q, id, from, sent, now, 0, typeName, message, None, |message.value|, resolve)
  }

  // ---------------------------------------------------------------------------
  // Properties
  // ---------------------------------------------------------------------------

  /** The older text overload is the newer one with a zero send attempt on a full .NET build. */
  lemma OlderTextIsNewerAtAttemptZero(q: InboundQueues.InQueue, id: Guids.Guid, from: Option<string>,
                                      sent: DateTimes.DateTime, typeName: Option<string>, message: Option<string>,
                                      now: DateTimes.DateTime, resolve: Addresses.Resolver)
    ensures EnqueueMessageText(q, id, from, sent, typeName, message, now, resolve)
         == EnqueueString(q, id, from, sent, 0, typeName, message, now, false, resolve)
  {
  }

  /** The older byte overload is the newer one with a zero send attempt. */
  lemma OlderBytesIsNewerAtAttemptZero(q: InboundQueues.InQueue, id: Guids.Guid, from: Option<string>,
                                       sent: DateTimes.DateTime, typeName: Option<string>, message: Option<seq<Byte>>,
                                       now: DateTimes.DateTime, resolve: Addresses.Resolver)
    ensures EnqueueMessageBytes(q, id, from, sent, typeName, message, now, resolve)
         == EnqueueBytes(q, id, from, sent, 0, typeName, message, now, resolve)
  {
  }

  /** The two builds of `EnqueueString` differ exactly on non-empty all-blank text, which only
      the .NET 3.5 build queues. */
  lemma BuildsDifferOnBlankText(message: Option<string>)
    ensures SkipsText(message, false) != SkipsText(message, true)
        <==> message.Some? && |message.value| > 0 && IsNullOrWhiteSpace(message)
  {
  }

  /** An accepted call fails only where the sender cannot be read or named as a file. */
  lemma AcceptFailsOnlyOnSender(q: InboundQueues.InQueue, id: Guids.Guid, from: Option<string>, sent: DateTimes.DateTime,
                                now: DateTimes.DateTime, attempt: Int32, typeName: Option<string>,
                                bytes: Option<seq<Byte>>, text: Option<string>, length: nat, resolve: Addresses.Resolver)
    ensures Accept(q, id, from, sent, now, attempt, typeName, bytes, text, length, resolve).Err?
        <==> from.None? || Addresses.FromString(from.value, resolve).Err?
    ensures Accept(q, id, from, sent, now, attempt, typeName, bytes, text, length, resolve).Ok? ==>
              Accept(q, id, from, sent, now, attempt, typeName, bytes, text, length, resolve).value.0.mq[|q.mq|].from
              == Some(Addresses.FromString(from.value, resolve).value)
  {
    if from.Some? && Addresses.FromString(from.value, resolve).Ok? {
      var a := Addresses.FromString(from.value, resolve).value;
      assert Addresses.ToFileNameString(a).Ok?;
    }
  }

  /** A text taken by the service on an idle queue is the next message `Receive` returns. */
  lemma StringThenReceive(q: InboundQueues.InQueue, id: Guids.Guid, from: Option<string>, sent: DateTimes.DateTime,
                          sendAttempt: Int32, typeName: Option<string>, message: Option<string>,
                          now: DateTimes.DateTime, later: DateTimes.DateTime, resolve: Addresses.Resolver)
    requires InboundQueues.Good(q) && |q.mq| == 0
    requires !IsNullOrWhiteSpace(message)
    requires EnqueueString(q, id, from, sent, sendAttempt, typeName, message, now, false, resolve).Ok?
    ensures var q' := EnqueueString(q, id, from, sent, sendAttempt, typeName, message, now, false, resolve).value.0;
      var got := InboundQueues.Receive(q', later).1;
      got.Ok? && got.value.Some? && got.value.value.text == message && got.value.value.id == id
  {
    var a := Addresses.FromString(from.value, resolve).value;
    var m := Build(id, a, sent, now, sendAttempt, typeName, None, message);
    InboundQueues.EnqueueThenReceive(q, m, later);
  }
}
