/** `InboundQueue`: the durable inbox. Every received message is written to its
    own `.imq` file under `in`, queued in memory, handed out in FIFO order by
    `Receive`, and on hand-out logged to `read\read-<yyyyMMdd-HH>.log` and its
    file deleted. On start-up the sorted `.imq` listing rebuilds the queue. */
module InboundQueues {
  import opened Base
  import opened Text
  import Sorting
  import DateTimes
  import Addresses
  import Messages
  import opened QueueFiles

  /** `signaled` is the state of the wait handle `Receive` blocks on. */
  datatype InQueue = InQueue(mq: seq<Messages.Message>, signaled: bool, tcount: UInt16,
                             disk: Disk, inDir: string, readDir: string)

  // ---------------------------------------------------------------------------
  // Start-up
  // ---------------------------------------------------------------------------

  /** Read and parse the listed files in order: a file that parses to null is skipped,
      one that throws aborts the start-up. */
  function Hydrate(files: seq<string>, disk: Disk, resolve: Addresses.Resolver)
    : (r: Result<seq<Messages.Message>>)
    ensures r.Ok? ==> |r.value| <= |files|
    ensures r.Ok? ==> forall i :: 0 <= i < |r.value| ==>
                        r.value[i].filename.Some? && r.value[i].filename.value in files
    ensures r.Ok? ==> forall i :: 0 <= i < |r.value| ==> r.value[i].filename.value in disk
  {
    if |files| == 0 then Ok([])
    else if files[0] !in disk then Err(FileNotFound(files[0]))
    else
      var parsed :- Messages.Parse(files[0], disk[files[0]], resolve);
      var rest :- Hydrate(files[1..], disk, resolve);
      Ok((if parsed.Some? then [parsed.value] else []) + rest)
  }

  /** `new InboundQueue(name, msgDir)`: `in` and `read` under `msgDir`; the `.imq` listing
      of `in` (given, in directory order) is sorted and hydrated; the handle is set when
      the listing is not empty. */
  function Open(msgDir: string, disk: Disk, listing: seq<string>, resolve: Addresses.Resolver)
    : (r: Result<InQueue>)
    ensures r.Ok? ==> r.value.signaled == (|listing| > 0) && r.value.tcount == 0 && r.value.disk == disk
    ensures r.Ok? ==> |r.value.mq| <= |listing|
  {
    var mq :- Hydrate(Sorting.Sort(listing), disk, resolve);
    Ok(InQueue(mq, |listing| > 0, 0, disk, PathCombine(msgDir, "in"), PathCombine(msgDir, "read")))
  }

  // ---------------------------------------------------------------------------
  // Enqueue
  // ---------------------------------------------------------------------------

  /** `{Sent:yyyyMMddHHmmssfff}-{tcount:0000}-{From.ToFileNameString()}.imq` under `in`. */
  function PathFor(q: InQueue, msg: Messages.Message): (r: Result<string>)
    ensures r.Err? <==> msg.from.None? || Addresses.ToFileNameString(msg.from.value).Err?
  {
    if msg.from.None? then Err(NullReference)
    else
      var fp :- Addresses.ToFileNameString(msg.from.value);
      Ok(PathCombine(q.inDir, MessageFileName(DateTimes.Format17(msg.sent, false), q.tcount, fp, ".imq")))
  }

  /** `inboundQueue.Enqueue(msg)`: name the file, write the record, queue the message at the
      tail, advance the counter, set the handle. A null sender or a TCP sender without an
      IP address throws before anything is written. */
  function Enqueue(q: InQueue, msg: Messages.Message): (r: Result<InQueue>)
    ensures r.Err? <==> PathFor(q, msg).Err?
    ensures r.Ok? ==> var stored := msg.(filename := Some(PathFor(q, msg).value));
      && r.value.mq == q.mq + [stored]
      && r.value.signaled
      && r.value.tcount == NextCount(q.tcount)
      && r.value.disk == q.disk[PathFor(q, msg).value := Messages.ToString(stored)]
      && r.value.inDir == q.inDir && r.value.readDir == q.readDir
  {
    var path :- PathFor(q, msg);
    var stored := msg.(filename := Some(path));
    Ok(q.(mq := q.mq + [stored], signaled := true, tcount := NextCount(q.tcount),
          disk := WriteAllText(q.disk, path, Messages.ToString(stored))))
  }

  // ---------------------------------------------------------------------------
  // Receive
  // ---------------------------------------------------------------------------

  /** `LogRead(message)` at clock reading `now`: append the record to the hour's read log,
      then delete the message's file. */
  function LogRead(q: InQueue, m: Messages.Message, now: DateTimes.DateTime): (r: (InQueue, Option<Exn>))
    ensures r.0.mq == q.mq && r.0.signaled == q.signaled && r.0.tcount == q.tcount
    ensures r.1.Some? <==> m.filename.None?
    ensures m.filename.Some? ==>
              r.0.disk.Keys == (q.disk.Keys + {LogPath(q.readDir, "read", DateTimes.FormatHourStem(now, false))})
                                 - {m.filename.value}
    ensures var log := LogPath(q.readDir, "read", DateTimes.FormatHourStem(now, false));
      m.filename != Some(log) ==>
        && log in r.0.disk
        && r.0.disk[log] == (if log in q.disk then q.disk[log] else "") + Messages.ToString(m) + NewLine
        && forall p :: p in r.0.disk && p != log ==> p in q.disk && r.0.disk[p] == q.disk[p]
  {
    var (d, e) := LogAndDelete(q.disk, q.readDir, "read", DateTimes.FormatHourStem(now, false),
                               Messages.ToString(m), m.filename);
    (q.(disk := d), e)
  }

  datatype StepOutcome = Got(m: Messages.Message) | Reset | TimedOut | Threw(e: Exn)

  /** One pass of the `Receive` loop. Run alone, an unset handle can only time out; a set
      handle with an empty queue is reset; otherwise the head is taken and logged. */
  function ReceiveStep(q: InQueue, now: DateTimes.DateTime): (r: (InQueue, StepOutcome))
    ensures !q.signaled ==> r == (q, TimedOut)
    ensures q.signaled && |q.mq| == 0 ==> r == (q.(signaled := false), Reset)
    ensures q.signaled && |q.mq| > 0 ==>
              && r.0.mq == q.mq[1..]
              && (r.1.Got? <==> q.mq[0].filename.Some?)
              && (r.1.Got? ==> r.1.m == q.mq[0])
              && (r.1.Threw? <==> q.mq[0].filename.None?)
  {
    if !q.signaled then (q, TimedOut)
    else if |q.mq| == 0 then (q.(signaled := false), Reset)
    else
      var head := q.mq[0];
      var (q1, e) := LogRead(q.(mq := q.mq[1..]), head, now);
      if e.Some? then (q1, Threw(e.value)) else (q1, Got(head))
  }

  /** `Receive(timeoutMs)` run without other threads: loop until a message, a timeout or an exception. */
  function Receive(q: InQueue, now: DateTimes.DateTime): (r: (InQueue, Result<Option<Messages.Message>>))
    ensures !q.signaled ==> r == (q, Ok(None))
    ensures q.signaled && |q.mq| == 0 ==> r == (q.(signaled := false), Ok(None))
    ensures q.signaled && |q.mq| > 0 ==>
              && r.0.mq == q.mq[1..]
              && (r.1.Ok? <==> q.mq[0].filename.Some?)
              && (r.1.Ok? ==> r.1.value == Some(q.mq[0]))
    decreases if q.signaled then 1 else 0
  {
    var (q1, o) := ReceiveStep(q, now);
    match o
    case Got(m) => (q1, Ok(Some(m)))
    case TimedOut => (q1, Ok(None))
    case Threw(e) => (q1, Err(e))
    case Reset => Receive(q1, now)
  }

  // ---------------------------------------------------------------------------
  // Invariant
  // ---------------------------------------------------------------------------

  /** Every queued message has its own file, still on disk, and a non-empty queue keeps the handle set. */
  predicate Good(q: InQueue)
  {
    && (|q.mq| > 0 ==> q.signaled)
    && (forall i :: 0 <= i < |q.mq| ==> q.mq[i].filename.Some? && q.mq[i].filename.value in q.disk)
    && (forall i, j :: 0 <= i < j < |q.mq| ==> q.mq[i].filename != q.mq[j].filename)
  }

  /** The file names of the queued messages. */
  predicate Queued(q: InQueue, path: string)
  {
    exists i :: 0 <= i < |q.mq| && q.mq[i].filename == Some(path)
  }

  lemma {:induction false} HydrateDistinct(files: seq<string>, disk: Disk, resolve: Addresses.Resolver)
    requires forall i, j :: 0 <= i < j < |files| ==> files[i] != files[j]
    requires Hydrate(files, disk, resolve).Ok?
    ensures var ms := Hydrate(files, disk, resolve).value;
      forall i, j :: 0 <= i < j < |ms| ==> ms[i].filename != ms[j].filename
  {
    if |files| > 0 {
      var parsed := Messages.Parse(files[0], disk[files[0]], resolve).value;
      var rest := Hydrate(files[1..], disk, resolve).value;
      HydrateDistinct(files[1..], disk, resolve);
      var ms := Hydrate(files, disk, resolve).value;
      assert ms == (if parsed.Some? then [parsed.value] else []) + rest;
      forall i | 0 <= i < |rest| ensures rest[i].filename != Some(files[0]) {
        assert rest[i].filename.value in files[1..];
      }
    }
  }

  /** A queue rebuilt from a listing without repeats is good. */
  lemma OpenGood(msgDir: string, disk: Disk, listing: seq<string>, resolve: Addresses.Resolver)
    requires forall i, j :: 0 <= i < j < |listing| ==> listing[i] != listing[j]
    requires Open(msgDir, disk, listing, resolve).Ok?
    ensures Good(Open(msgDir, disk, listing, resolve).value)
  {
    SortDistinct(listing);
    assert Hydrate(Sorting.Sort(listing), disk, resolve).Ok?;
    HydrateDistinct(Sorting.Sort(listing), disk, resolve);
  }

  /** Sorting a repeat-free listing keeps it repeat-free. */
  lemma SortDistinct(s: seq<string>)
    requires forall a, b :: 0 <= a < b < |s| ==> s[a] != s[b]
    ensures var t := Sorting.Sort(s); forall i, j :: 0 <= i < j < |t| ==> t[i] != t[j]
  {
    var t := Sorting.Sort(s);
    forall i, j | 0 <= i < j < |t| ensures t[i] != t[j] {
      SortedDistinct(s, t, i, j);
    }
  }

  /** A permutation of a repeat-free sequence is repeat-free. */
  lemma SortedDistinct(s: seq<string>, t: seq<string>, i: int, j: int)
    requires forall a, b :: 0 <= a < b < |s| ==> s[a] != s[b]
    requires multiset(t) == multiset(s) && 0 <= i < j < |t|
    ensures t[i] != t[j]
  {
    if t[i] == t[j] {
      var x := t[i];
      assert multiset(t)[x] >= 2 by {
        assert t == t[..i] + [t[i]] + t[i + 1..j] + [t[j]] + t[j + 1..];
      }
      DistinctCount(s, x);
      assert false;
    }
  }

  lemma {:induction false} DistinctCount(s: seq<string>, x: string)
    requires forall a, b :: 0 <= a < b < |s| ==> s[a] != s[b]
    ensures multiset(s)[x] <= 1
  {
    if |s| > 0 {
      DistinctCount(s[1..], x);
      assert s == [s[0]] + s[1..];
      if s[0] == x {
        assert x !in s[1..] by {
          forall k | 0 <= k < |s[1..]| ensures s[1..][k] != x {
            assert s[1..][k] == s[k + 1];
          }
        }
      }
    }
  }

  /** Enqueue keeps the queue good when the new file name is not already queued. */
  lemma EnqueueGood(q: InQueue, msg: Messages.Message)
    requires Good(q) && Enqueue(q, msg).Ok?
    requires !Queued(q, PathFor(q, msg).value)
    ensures Good(Enqueue(q, msg).value)
  {
    var r := Enqueue(q, msg).value;
    var path := PathFor(q, msg).value;
    forall i, j | 0 <= i < j < |r.mq| ensures r.mq[i].filename != r.mq[j].filename {
      if j == |q.mq| {
        assert r.mq[j].filename == Some(path);
        assert r.mq[i] == q.mq[i];
      } else {
        assert r.mq[i] == q.mq[i] && r.mq[j] == q.mq[j];
      }
    }
    forall i | 0 <= i < |r.mq| ensures r.mq[i].filename.Some? && r.mq[i].filename.value in r.disk {
      if i < |q.mq| {
        assert r.mq[i] == q.mq[i];
      }
    }
  }

  /** A receive step keeps the queue good, and in a good queue it never throws. */
  lemma ReceiveStepGood(q: InQueue, now: DateTimes.DateTime)
    requires Good(q)
    ensures Good(ReceiveStep(q, now).0)
    ensures !ReceiveStep(q, now).1.Threw?
  {
    if q.signaled && |q.mq| > 0 {
      var r := ReceiveStep(q, now).0;
      var head := q.mq[0].filename.value;
      forall i | 0 <= i < |r.mq| ensures r.mq[i].filename.Some? && r.mq[i].filename.value in r.disk {
        assert r.mq[i] == q.mq[i + 1];
        assert q.mq[i + 1].filename != q.mq[0].filename;
      }
      forall i, j | 0 <= i < j < |r.mq| ensures r.mq[i].filename != r.mq[j].filename {
        assert r.mq[i] == q.mq[i + 1] && r.mq[j] == q.mq[j + 1];
      }
    }
  }

  /** In a good queue `Receive` returns null exactly when the queue is empty; otherwise it
      returns the head and leaves the rest in order. */
  lemma ReceiveFifo(q: InQueue, now: DateTimes.DateTime)
    requires Good(q)
    ensures Receive(q, now).1 == (if |q.mq| == 0 then Ok(None) else Ok(Some(q.mq[0])))
    ensures |q.mq| > 0 ==> Receive(q, now).0.mq == q.mq[1..]
    ensures |q.mq| == 0 ==> !Receive(q, now).0.signaled && Receive(q, now).0.mq == []
  {
    ReceiveStepGood(q, now);
  }

  /** What is enqueued into an empty good queue is what the next `Receive` returns. */
  lemma EnqueueThenReceive(q: InQueue, msg: Messages.Message, now: DateTimes.DateTime)
    requires Good(q) && |q.mq| == 0 && Enqueue(q, msg).Ok?
    ensures Receive(Enqueue(q, msg).value, now).1 == Ok(Some(msg.(filename := Some(PathFor(q, msg).value))))
  {
    EnqueueGood(q, msg);
    ReceiveFifo(Enqueue(q, msg).value, now);
  }

  /** The record `Enqueue` writes reads back as the message it queued (up to the millisecond and printed nulls). */
  lemma EnqueueDurable(q: InQueue, msg: Messages.Message, resolve: Addresses.Resolver)
    requires Enqueue(q, msg).Ok? && Messages.Printable(msg, resolve)
    ensures var path := PathFor(q, msg).value;
      var r := Enqueue(q, msg).value;
      path in r.disk && Messages.Parse(path, r.disk[path], resolve) == Ok(Some(Messages.Reread(r.mq[|q.mq|], path)))
  {
    var path := PathFor(q, msg).value;
    Messages.RoundTrip(msg.(filename := Some(path)), path, resolve);
  }

  /** The stored file name starts with the 17-digit 24-hour `Sent` stamp, so sorting names sorts by send time first;
      then, between dashes, the counter padded to four digits, which only 10000 overflows. */
  lemma EnqueueNameStamp(q: InQueue, msg: Messages.Message)
    requires PathFor(q, msg).Ok?
    ensures var name := MessageFileName(DateTimes.Format17(msg.sent, false), q.tcount,
                                        Addresses.ToFileNameString(msg.from.value).value, ".imq");
      |name| >= 17 && name[..17] == DateTimes.Format17(msg.sent, false) && AllDigits(name[..17])
    ensures var name := MessageFileName(DateTimes.Format17(msg.sent, false), q.tcount,
                                        Addresses.ToFileNameString(msg.from.value).value, ".imq");
      CounterField(name, 17, q.tcount) && (q.tcount < 10000 ==> |PadNat(q.tcount, 4)| == 4)
  {
    var stamp := DateTimes.Format17(msg.sent, false);
    DateTimes.FieldsOf(msg.sent, msg.sent.hour, stamp);
    FileNameStartsWithStamp(stamp, q.tcount, Addresses.ToFileNameString(msg.from.value).value, ".imq");
    FileNameCounter(stamp, q.tcount, Addresses.ToFileNameString(msg.from.value).value, ".imq");
    if q.tcount < 10000 {
      CounterWidth(q.tcount);
    }
  }
}
